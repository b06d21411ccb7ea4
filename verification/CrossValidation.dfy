/**
 * Cross-validation of a manifest against on-chain deployment groups
 * (validation/manifest.go): a greedy matcher that consumes counts.
 */
module CrossValidation {
  import opened Wrappers
  import opened ResourceTypes
  import opened Manifest
  import opened Permutations

  /** `types.ResourceGroup`: a name and a list of resources. */
  datatype ResourceGroup = ResourceGroup(name: string, resources: seq<Resources>)

  datatype Error = GroupCountMismatch | UnknownGroup | Underutilized | NotFullyMatched | OtherEndpointMismatch | HTTPEndpointMismatch

  /** What the matcher compares of a resource. */
  datatype Class = Class(cpu: Option<Quantity>, memory: Option<Quantity>, storage: Option<Quantity>)

  function ClassOf(u: ResourceUnits): Class {
    Class(u.cpu, u.memory, u.storage)
  }

  // ---------------------------------------------------------------- specification by sums

  function Share(r: Resources, c: Class): nat {
    if ClassOf(r.units) == c then r.count else 0
  }

  /** Total count of one class. */
  function CountOf(rs: seq<Resources>, c: Class): nat {
    if rs == [] then 0 else Share(rs[0], c) + CountOf(rs[1..], c)
  }

  function EndpointCount(es: seq<EndpointKind>, kind: EndpointKind): nat {
    if es == [] then 0 else (if es[0] == kind then 1 else 0) + EndpointCount(es[1..], kind)
  }

  function DeploymentEndpoints(rs: seq<Resources>, kind: EndpointKind): nat {
    if rs == [] then 0 else EndpointCount(rs[0].units.endpoints, kind) + DeploymentEndpoints(rs[1..], kind)
  }

  function KindOf(e: ServiceExpose): EndpointKind {
    if ShouldBeIngress(e) then SharedHTTP else RandomPort
  }

  function ExposeCount(es: seq<ServiceExpose>, kind: EndpointKind): nat {
    if es == [] then 0 else (if es[0].global && KindOf(es[0]) == kind then 1 else 0) + ExposeCount(es[1..], kind)
  }

  function ManifestEndpoints(ss: seq<Service>, kind: EndpointKind): nat {
    if ss == [] then 0 else ExposeCount(ss[0].expose, kind) + ManifestEndpoints(ss[1..], kind)
  }

  /** A deployment record asking for `count` finds what it needs in a class total of `have`. */
  predicate Satisfied(count: nat, have: int) {
    if count == 0 then have > 0 else count <= have
  }

  /** The `i`th deployment record is met by what the earlier ones leave of its class. */
  predicate FulfilledAt(m: seq<Resources>, d: seq<Resources>, i: nat)
    requires i < |d|
  {
    var c := ClassOf(d[i].units);
    Satisfied(d[i].count, CountOf(m, c) - CountOf(d[..i], c))
  }

  ghost predicate AllFulfilled(m: seq<Resources>, d: seq<Resources>) {
    forall i :: 0 <= i < |d| ==> FulfilledAt(m, d, i)
  }

  ghost predicate NothingLeft(m: seq<Resources>, d: seq<Resources>) {
    forall c :: CountOf(m, c) <= CountOf(d, c)
  }

  /** The verdict, by class totals alone. */
  ghost function GroupVerdict(mgroup: Group, dgroup: ResourceGroup): Result<(), Error> {
    var m, d := GroupResources(mgroup), dgroup.resources;
    if !AllFulfilled(m, d) then Failure(Underutilized)
    else if !NothingLeft(m, d) then Failure(NotFullyMatched)
    else if ManifestEndpoints(mgroup.services, RandomPort) != DeploymentEndpoints(d, RandomPort) then Failure(OtherEndpointMismatch)
    else if ManifestEndpoints(mgroup.services, SharedHTTP) != DeploymentEndpoints(d, SharedHTTP) then Failure(HTTPEndpointMismatch)
    else Success(())
  }

  // ---------------------------------------------------------------- sums

  lemma {:induction false} CountConcat(a: seq<Resources>, b: seq<Resources>, c: Class)
    ensures CountOf(a + b, c) == CountOf(a, c) + CountOf(b, c)
  {
    if a == [] {
      assert a + b == b;
    } else {
      assert (a + b)[1..] == a[1..] + b;
      CountConcat(a[1..], b, c);
    }
  }

  lemma {:induction false} CountAt(rs: seq<Resources>, i: nat, c: Class)
    requires i < |rs|
    ensures CountOf(rs, c) == CountOf(rs[..i], c) + Share(rs[i], c) + CountOf(rs[i + 1..], c)
    ensures CountOf(rs[..i + 1], c) == CountOf(rs[..i], c) + Share(rs[i], c)
  {
    assert rs == rs[..i] + rs[i..] && rs[i..][1..] == rs[i + 1..];
    CountConcat(rs[..i], rs[i..], c);
    assert rs[..i + 1] == rs[..i] + [rs[i]] && [rs[i]][1..] == [];
    CountConcat(rs[..i], [rs[i]], c);
  }

  lemma CountUpdate(rs: seq<Resources>, i: nat, r: Resources, c: Class)
    requires i < |rs|
    ensures CountOf(rs[i := r], c) == CountOf(rs, c) - Share(rs[i], c) + Share(r, c)
  {
    CountAt(rs, i, c);
    CountAt(rs[i := r], i, c);
    assert rs[i := r][..i] == rs[..i] && rs[i := r][i + 1..] == rs[i + 1..];
  }

  lemma {:induction false} CountZero(rs: seq<Resources>, c: Class)
    ensures CountOf(rs, c) == 0 <==> forall i :: 0 <= i < |rs| ==> Share(rs[i], c) == 0
  {
    if rs != [] {
      CountZero(rs[1..], c);
      assert forall i :: 0 < i < |rs| ==> rs[i] == rs[1..][i - 1];
      assert forall i :: 0 <= i < |rs| - 1 ==> rs[1..][i] == rs[i + 1];
    }
  }

  // ---------------------------------------------------------------- the matcher

  ghost predicate SameUnits(a: seq<Resources>, b: seq<Resources>) {
    |a| == |b| && forall i :: 0 <= i < |a| ==> a[i].units == b[i].units
  }

  /** `after` is `before` with `taken` units of class `c` consumed. */
  ghost predicate Consumed(before: seq<Resources>, after: seq<Resources>, c: Class, taken: int) {
    && SameUnits(before, after)
    && forall k :: CountOf(after, k) == CountOf(before, k) - if k == c then taken else 0
  }

  lemma ConsumeStep(before: seq<Resources>, mlist: seq<Resources>, c: Class, taken: int, i: nat, more: nat)
    requires i < |mlist| && Consumed(before, mlist, c, taken)
    requires ClassOf(mlist[i].units) == c && more <= mlist[i].count
    ensures Consumed(before, mlist[i := mlist[i].(count := mlist[i].count - more)], c, taken + more)
  {
    var r := mlist[i].(count := mlist[i].count - more);
    forall k ensures CountOf(mlist[i := r], k) == CountOf(before, k) - if k == c then taken + more else 0 {
      CountUpdate(mlist, i, r, k);
    }
  }

  /** The inner loop: take one deployment record out of the manifest list, front to back. */
  method MatchRecord(given: seq<Resources>, record: Resources) returns (mlist: seq<Resources>, ok: bool)
    ensures ok <==> Satisfied(record.count, CountOf(given, ClassOf(record.units)))
    ensures ok ==> Consumed(given, mlist, ClassOf(record.units), record.count)
  {
    ghost var c := ClassOf(record.units);
    mlist := given;
    var need: nat := record.count;
    for i := 0 to |mlist|
      invariant |mlist| == |given| && need <= record.count
      invariant record.count > 0 ==> need > 0
      invariant Consumed(given, mlist, c, record.count - need)
      invariant forall k :: 0 <= k < i ==> Share(mlist[k], c) == 0
    {
      var mrec := mlist[i];
      if mrec.count == 0 {
        continue;
      }
      if record.units.cpu != mrec.units.cpu || record.units.memory != mrec.units.memory || record.units.storage != mrec.units.storage {
        continue;
      }
      CountAt(mlist, i, c);
      var take := if mrec.count >= need then need else mrec.count;
      ConsumeStep(given, mlist, c, record.count - need, i, take);
      mlist := mlist[i := mrec.(count := mrec.count - take)];
      need := need - take;
      if need == 0 {
        return mlist, true;
      }
    }
    CountZero(mlist, c);
    ok := false;
  }

  lemma {:induction false} EndpointsPrefix(d: seq<Resources>, i: nat, kind: EndpointKind)
    requires i < |d|
    ensures DeploymentEndpoints(d[..i + 1], kind) == DeploymentEndpoints(d[..i], kind) + EndpointCount(d[i].units.endpoints, kind)
  {
    if i == 0 {
      assert d[..1][1..] == [] && d[..0] == [];
    } else {
      EndpointsPrefix(d[1..], i - 1, kind);
      assert d[..i + 1][1..] == d[1..][..i] && d[..i][1..] == d[1..][..i - 1];
    }
  }

  /** Count the endpoints of both kinds in one deployment record. */
  method CountRecordEndpoints(record: Resources) returns (http: nat, other: nat)
    ensures http == EndpointCount(record.units.endpoints, SharedHTTP)
    ensures other == EndpointCount(record.units.endpoints, RandomPort)
  {
    http, other := 0, 0;
    var es := record.units.endpoints;
    for i := 0 to |es|
      invariant http + EndpointCount(es[i..], SharedHTTP) == EndpointCount(es, SharedHTTP)
      invariant other + EndpointCount(es[i..], RandomPort) == EndpointCount(es, RandomPort)
    {
      match es[i] {
        case SharedHTTP => http := http + 1;
        case RandomPort => other := other + 1;
      }
      assert es[i..][1..] == es[i + 1..];
    }
  }

  /** Count the global exposes of both kinds in the manifest. */
  method CountServiceEndpoints(ss: seq<Service>) returns (http: nat, other: nat)
    ensures http == ManifestEndpoints(ss, SharedHTTP)
    ensures other == ManifestEndpoints(ss, RandomPort)
  {
    http, other := 0, 0;
    for i := 0 to |ss|
      invariant http + ManifestEndpoints(ss[i..], SharedHTTP) == ManifestEndpoints(ss, SharedHTTP)
      invariant other + ManifestEndpoints(ss[i..], RandomPort) == ManifestEndpoints(ss, RandomPort)
    {
      var es := ss[i].expose;
      ghost var http0, other0 := http, other;
      for j := 0 to |es|
        invariant http + ExposeCount(es[j..], SharedHTTP) == http0 + ExposeCount(es, SharedHTTP)
        invariant other + ExposeCount(es[j..], RandomPort) == other0 + ExposeCount(es, RandomPort)
      {
        if es[j].global {
          if ShouldBeIngress(es[j]) {
            http := http + 1;
          } else {
            other := other + 1;
          }
        }
        assert es[j..][1..] == es[j + 1..];
      }
      assert ss[i..][1..] == ss[i + 1..];
    }
  }

  /** What the matcher has consumed after the first `i` deployment records. */
  ghost predicate ConsumedUpTo(m: seq<Resources>, mlist: seq<Resources>, d: seq<Resources>, i: nat)
    requires i <= |d|
  {
    SameUnits(m, mlist) && forall c :: CountOf(mlist, c) == CountOf(m, c) - CountOf(d[..i], c)
  }

  lemma ConsumedNext(m: seq<Resources>, mlist: seq<Resources>, after: seq<Resources>, d: seq<Resources>, i: nat)
    requires i < |d| && ConsumedUpTo(m, mlist, d, i)
    requires Consumed(mlist, after, ClassOf(d[i].units), d[i].count)
    ensures ConsumedUpTo(m, after, d, i + 1)
  {
    forall c ensures CountOf(after, c) == CountOf(m, c) - CountOf(d[..i + 1], c) {
      CountAt(d, i, c);
    }
  }

  lemma LeftoverMeans(m: seq<Resources>, mlist: seq<Resources>, d: seq<Resources>)
    requires ConsumedUpTo(m, mlist, d, |d|)
    ensures NothingLeft(m, d) <==> forall i :: 0 <= i < |mlist| ==> mlist[i].count == 0
  {
    assert d[..|d|] == d;
    if forall i :: 0 <= i < |mlist| ==> mlist[i].count == 0 {
      forall c ensures CountOf(m, c) <= CountOf(d, c) {
        CountZero(mlist, c);
      }
    } else {
      var i :| 0 <= i < |mlist| && mlist[i].count != 0;
      CountAt(mlist, i, ClassOf(mlist[i].units));
    }
  }

  /** `validateManifestDeploymentGroup`. */
  method ValidateGroup(mgroup: Group, dgroup: ResourceGroup) returns (r: Result<(), Error>)
    ensures r == GroupVerdict(mgroup, dgroup)
  {
    var d := dgroup.resources;
    ghost var m := GroupResources(mgroup);
    var mlist := GroupResources(mgroup);
    var http, other := 0, 0;
    for i := 0 to |d|
      invariant ConsumedUpTo(m, mlist, d, i)
      invariant forall k :: 0 <= k < i ==> FulfilledAt(m, d, k)
      invariant http == DeploymentEndpoints(d[..i], SharedHTTP)
      invariant other == DeploymentEndpoints(d[..i], RandomPort)
    {
      var h, o := CountRecordEndpoints(d[i]);
      http, other := http + h, other + o;
      EndpointsPrefix(d, i, SharedHTTP);
      EndpointsPrefix(d, i, RandomPort);
      var after, ok := MatchRecord(mlist, d[i]);
      if !ok {
        assert !FulfilledAt(m, d, i);
        return Failure(Underutilized);
      }
      ConsumedNext(m, mlist, after, d, i);
      mlist := after;
    }
    assert d[..|d|] == d;
    LeftoverMeans(m, mlist, d);
    for i := 0 to |mlist|
      invariant forall k :: 0 <= k < i ==> mlist[k].count == 0
    {
      if mlist[i].count > 0 {
        return Failure(NotFullyMatched);
      }
    }
    var mhttp, mother := CountServiceEndpoints(mgroup.services);
    if mother != other {
      return Failure(OtherEndpointMismatch);
    }
    if mhttp != http {
      return Failure(HTTPEndpointMismatch);
    }
    r := Success(());
  }

  /** The last deployment group of that name: the name table is filled front to back. */
  function LastNamed(dgroups: seq<ResourceGroup>, name: string): Option<ResourceGroup> {
    if dgroups == [] then None
    else if dgroups[|dgroups| - 1].name == name then Some(dgroups[|dgroups| - 1])
    else LastNamed(dgroups[..|dgroups| - 1], name)
  }

  /** What is found out about one manifest group. */
  ghost function GroupOutcome(mgroup: Group, dgroups: seq<ResourceGroup>): Result<(), Error> {
    var dgroup := LastNamed(dgroups, mgroup.name);
    if dgroup.None? then Failure(UnknownGroup) else GroupVerdict(mgroup, dgroup.value)
  }

  ghost predicate GroupAccepted(mgroup: Group, dgroups: seq<ResourceGroup>) {
    GroupOutcome(mgroup, dgroups).Success?
  }

  /** The `i`th manifest group is the first that is not accepted. */
  ghost predicate FirstRefused(mgroups: seq<Group>, dgroups: seq<ResourceGroup>, i: nat) {
    i < |mgroups| && !GroupAccepted(mgroups[i], dgroups) && forall k :: 0 <= k < i ==> GroupAccepted(mgroups[k], dgroups)
  }

  ghost predicate Accepted(mgroups: seq<Group>, dgroups: seq<ResourceGroup>) {
    |mgroups| == |dgroups| && forall i :: 0 <= i < |mgroups| ==> GroupAccepted(mgroups[i], dgroups)
  }

  /** `validateManifestDeploymentGroups`. */
  method ValidateGroups(mgroups: seq<Group>, dgroups: seq<ResourceGroup>) returns (r: Result<(), Error>)
    ensures r.Success? <==> Accepted(mgroups, dgroups)
    ensures r == Failure(GroupCountMismatch) <==> |mgroups| != |dgroups|
    ensures r.Failure? && |mgroups| == |dgroups| ==>
              exists i: nat :: FirstRefused(mgroups, dgroups, i) && r == GroupOutcome(mgroups[i], dgroups)
  {
    if |mgroups| != |dgroups| {
      return Failure(GroupCountMismatch);
    }
    var byName: map<string, ResourceGroup> := map[];
    for i := 0 to |dgroups|
      invariant forall name :: LastNamed(dgroups[..i], name) == if name in byName then Some(byName[name]) else None
    {
      assert dgroups[..i + 1][..i] == dgroups[..i];
      byName := byName[dgroups[i].name := dgroups[i]];
    }
    assert dgroups[..|dgroups|] == dgroups;
    for i := 0 to |mgroups|
      invariant forall k :: 0 <= k < i ==> GroupAccepted(mgroups[k], dgroups)
    {
      var mgroup := mgroups[i];
      assert LastNamed(dgroups, mgroup.name) == if mgroup.name in byName then Some(byName[mgroup.name]) else None;
      if mgroup.name !in byName {
        assert FirstRefused(mgroups, dgroups, i);
        return Failure(UnknownGroup);
      }
      r := ValidateGroup(mgroup, byName[mgroup.name]);
      if r.Failure? {
        assert FirstRefused(mgroups, dgroups, i);
        return;
      }
    }
    r := Success(());
  }

  // ---------------------------------------------------------------- what acceptance means

  ghost predicate SameTotals(m: seq<Resources>, d: seq<Resources>) {
    forall c :: CountOf(m, c) == CountOf(d, c)
  }

  /** Every zero-count record has a later record of its class with a positive count. */
  ghost predicate ZerosFollowed(d: seq<Resources>) {
    forall i :: 0 <= i < |d| && d[i].count == 0 ==>
      exists j :: i < j < |d| && ClassOf(d[j].units) == ClassOf(d[i].units) && d[j].count > 0
  }

  ghost predicate SameEndpoints(mgroup: Group, dgroup: ResourceGroup) {
    && ManifestEndpoints(mgroup.services, SharedHTTP) == DeploymentEndpoints(dgroup.resources, SharedHTTP)
    && ManifestEndpoints(mgroup.services, RandomPort) == DeploymentEndpoints(dgroup.resources, RandomPort)
  }

  lemma {:induction false} FulfilledPrefix(m: seq<Resources>, d: seq<Resources>, i: nat, c: Class)
    requires i <= |d| && AllFulfilled(m, d)
    ensures CountOf(d[..i], c) <= CountOf(m, c)
  {
    if i > 0 {
      FulfilledPrefix(m, d, i - 1, c);
      CountAt(d, i - 1, c);
      assert FulfilledAt(m, d, i - 1);
    }
  }

  lemma MatchingImpliesTotals(m: seq<Resources>, d: seq<Resources>)
    requires AllFulfilled(m, d) && NothingLeft(m, d)
    ensures SameTotals(m, d) && ZerosFollowed(d)
  {
    forall c ensures CountOf(m, c) == CountOf(d, c) {
      FulfilledPrefix(m, d, |d|, c);
      assert d[..|d|] == d;
    }
    forall i | 0 <= i < |d| && d[i].count == 0
      ensures exists j :: i < j < |d| && ClassOf(d[j].units) == ClassOf(d[i].units) && d[j].count > 0
    {
      var c := ClassOf(d[i].units);
      assert FulfilledAt(m, d, i);
      CountAt(d, i, c);
      CountZero(d[i + 1..], c);
      var k :| 0 <= k < |d[i + 1..]| && Share(d[i + 1..][k], c) != 0;
      assert d[i + 1..][k] == d[i + 1 + k];
    }
  }

  lemma TotalsImplyMatching(m: seq<Resources>, d: seq<Resources>)
    requires SameTotals(m, d) && ZerosFollowed(d)
    ensures AllFulfilled(m, d) && NothingLeft(m, d)
  {
    forall i | 0 <= i < |d| ensures FulfilledAt(m, d, i) {
      var c := ClassOf(d[i].units);
      CountAt(d, i, c);
      if d[i].count == 0 {
        var j :| i < j < |d| && ClassOf(d[j].units) == c && d[j].count > 0;
        CountAt(d[i + 1..], j - i - 1, c);
      }
    }
  }

  /**
   * Exactly when a group is accepted, on every input: per class the totals
   * agree, both endpoint totals agree, and no zero-count deployment record
   * comes after the last positive one of its class.
   */
  lemma AcceptanceCharacterised(mgroup: Group, dgroup: ResourceGroup)
    ensures GroupVerdict(mgroup, dgroup).Success? <==>
            && SameTotals(GroupResources(mgroup), dgroup.resources)
            && ZerosFollowed(dgroup.resources)
            && SameEndpoints(mgroup, dgroup)
  {
    var m, d := GroupResources(mgroup), dgroup.resources;
    if AllFulfilled(m, d) && NothingLeft(m, d) {
      MatchingImpliesTotals(m, d);
    }
    if SameTotals(m, d) && ZerosFollowed(d) {
      TotalsImplyMatching(m, d);
    }
  }

  /** So a group whose last record asks for zero replicas is never accepted. */
  lemma TrailingZeroRefused(mgroup: Group, dgroup: ResourceGroup)
    requires dgroup.resources != [] && dgroup.resources[|dgroup.resources| - 1].count == 0
    ensures GroupVerdict(mgroup, dgroup).Failure?
  {
    AcceptanceCharacterised(mgroup, dgroup);
    assert !ZerosFollowed(dgroup.resources);
  }

  lemma {:induction false} CountPermuted(a: seq<Resources>, b: seq<Resources>, c: Class)
    requires multiset(a) == multiset(b)
    ensures CountOf(a, c) == CountOf(b, c)
    decreases |a|
  {
    if a == [] {
      assert |multiset(b)| == |b| == 0;
    } else {
      var k := MatchHead(a, b);
      var rest := b[..k] + b[k + 1..];
      CountPermuted(a[1..], rest, c);
      CountAt(b, k, c);
      CountConcat(b[..k], b[k + 1..], c);
    }
  }

  ghost predicate PositiveCounts(rs: seq<Resources>) {
    forall i :: 0 <= i < |rs| ==> rs[i].count > 0
  }

  /** For positive deployment counts the matching part of the verdict does not depend on the order of either list. */
  lemma OrderIrrelevant(m: seq<Resources>, m': seq<Resources>, d: seq<Resources>, d': seq<Resources>)
    requires multiset(m) == multiset(m') && multiset(d) == multiset(d')
    requires PositiveCounts(d)
    ensures AllFulfilled(m, d) && NothingLeft(m, d) <==> AllFulfilled(m', d') && NothingLeft(m', d')
  {
    forall c ensures CountOf(m, c) == CountOf(m', c) && CountOf(d, c) == CountOf(d', c) {
      CountPermuted(m, m', c);
      CountPermuted(d, d', c);
    }
    forall i | 0 <= i < |d'| ensures d'[i].count > 0 {
      assert d'[i] in multiset(d);
    }
    if AllFulfilled(m, d) && NothingLeft(m, d) {
      MatchingImpliesTotals(m, d);
      TotalsImplyMatching(m', d');
    }
    if AllFulfilled(m', d') && NothingLeft(m', d') {
      MatchingImpliesTotals(m', d');
      TotalsImplyMatching(m, d);
    }
  }

  // ---------------------------------------------------------------- totals of each kind

  datatype Kind = CPU | Memory | Storage

  /** The amount of one kind, none if it is missing. */
  function AmountOf(u: ResourceUnits, kind: Kind): nat {
    var q := match kind case CPU => u.cpu case Memory => u.memory case Storage => u.storage;
    if q.Some? then q.value.value else 0
  }

  /** What all replicas together need of one kind. */
  function KindTotal(rs: seq<Resources>, kind: Kind): nat {
    if rs == [] then 0 else rs[0].count * AmountOf(rs[0].units, kind) + KindTotal(rs[1..], kind)
  }

  /** The records of other classes. */
  function Without(rs: seq<Resources>, c: Class): (r: seq<Resources>)
    ensures |r| <= |rs| && (rs != [] && ClassOf(rs[0].units) == c ==> |r| < |rs|)
  {
    if rs == [] then [] else (if ClassOf(rs[0].units) == c then [] else [rs[0]]) + Without(rs[1..], c)
  }

  lemma {:induction false} WithoutCounts(rs: seq<Resources>, c: Class, k: Class)
    ensures CountOf(Without(rs, c), k) == if k == c then 0 else CountOf(rs, k)
  {
    if rs != [] {
      WithoutCounts(rs[1..], c, k);
      if ClassOf(rs[0].units) == c {
        assert Without(rs, c) == Without(rs[1..], c);
      } else {
        assert Without(rs, c)[1..] == Without(rs[1..], c);
      }
    }
  }

  lemma SameClassAmount(u: ResourceUnits, v: ResourceUnits, kind: Kind)
    requires ClassOf(u) == ClassOf(v)
    ensures AmountOf(u, kind) == AmountOf(v, kind)
  {
  }

  lemma AddCounts(a: nat, b: nat, x: nat)
    ensures (a + b) * x == a * x + b * x
  {
  }

  lemma {:induction false} WithoutTotal(rs: seq<Resources>, u: ResourceUnits, kind: Kind)
    ensures KindTotal(rs, kind) == KindTotal(Without(rs, ClassOf(u)), kind) + CountOf(rs, ClassOf(u)) * AmountOf(u, kind)
  {
    hide AmountOf;
    if rs != [] {
      WithoutTotal(rs[1..], u, kind);
      if ClassOf(rs[0].units) == ClassOf(u) {
        SameClassAmount(rs[0].units, u, kind);
        AddCounts(rs[0].count, CountOf(rs[1..], ClassOf(u)), AmountOf(u, kind));
        assert Without(rs, ClassOf(u)) == Without(rs[1..], ClassOf(u));
      } else {
        assert Without(rs, ClassOf(u))[1..] == Without(rs[1..], ClassOf(u));
      }
    }
  }

  lemma {:induction false} NothingCounted(rs: seq<Resources>, kind: Kind)
    requires forall c :: CountOf(rs, c) == 0
    ensures KindTotal(rs, kind) == 0
  {
    if rs != [] {
      assert CountOf(rs, ClassOf(rs[0].units)) == 0;
      forall c ensures CountOf(rs[1..], c) == 0 {
        assert CountOf(rs, c) == 0;
      }
      NothingCounted(rs[1..], kind);
    }
  }

  /** Equal class totals mean equal totals of CPU, memory and storage. */
  lemma {:induction false} KindTotalsAgree(m: seq<Resources>, d: seq<Resources>, kind: Kind)
    requires SameTotals(m, d)
    ensures KindTotal(m, kind) == KindTotal(d, kind)
    decreases |m|
  {
    if m == [] {
      forall c ensures CountOf(d, c) == 0 {
        assert CountOf(m, c) == CountOf(d, c);
      }
      NothingCounted(d, kind);
    } else {
      var u := m[0].units;
      var c := ClassOf(u);
      WithoutTotal(m, u, kind);
      WithoutTotal(d, u, kind);
      assert CountOf(m, c) == CountOf(d, c);
      forall k ensures CountOf(Without(m, c), k) == CountOf(Without(d, c), k) {
        WithoutCounts(m, c, k);
        WithoutCounts(d, c, k);
        assert CountOf(m, k) == CountOf(d, k);
      }
      KindTotalsAgree(Without(m, c), Without(d, c), kind);
    }
  }

  /** An accepted group needs exactly as much CPU, memory and storage as the deployment group holds. */
  lemma {:induction false} AcceptedNeedsWhatIsHeld(mgroup: Group, dgroup: ResourceGroup, kind: Kind)
    requires GroupVerdict(mgroup, dgroup).Success?
    ensures KindTotal(GroupResources(mgroup), kind) == KindTotal(dgroup.resources, kind)
  {
    AcceptanceCharacterised(mgroup, dgroup);
    KindTotalsAgree(GroupResources(mgroup), dgroup.resources, kind);
  }
}
