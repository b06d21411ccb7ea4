/**
 * The provider's inventory service (provider/cluster/inventory.go): the
 * in-place packer, the admission test and the event loop that reserves,
 * marks and frees capacity.
 */
module Inventory {
  import opened Wrappers
  import opened ResourceTypes
  import opened Packing
  import FirstFit

  const NONE := Some(Quantity(0, []))

  /** Units with CPU, memory and storage all present, which `Sub` needs on both sides. */
  type FullUnits = u: ResourceUnits | Complete(u) witness ResourceUnits(NONE, NONE, NONE, [])

  type FullResources = r: Resources | Complete(r.units) witness Resources(ResourceUnits(NONE, NONE, NONE, []), 0)

  datatype Node = Node(id: string, allocateable: ResourceUnits, available: FullUnits)

  datatype OrderID = OrderID(owner: string, dseq: nat, gseq: nat, oseq: nat)

  datatype Reservation = Reservation(order: OrderID, name: string, resources: seq<FullResources>, active: bool)

  function Avails(nodes: seq<Node>): (r: seq<Vec>)
    ensures |r| == |nodes|
  {
    seq(|nodes|, i requires 0 <= i < |nodes| => Amount(nodes[i].available))
  }

  function Wants(r: FullResources): Demand {
    Demand(Amount(r.units), r.count)
  }

  function Demands(rs: seq<FullResources>): (r: seq<Demand>)
    ensures |r| == |rs|
  {
    seq(|rs|, i requires 0 <= i < |rs| => Wants(rs[i]))
  }

  function EndpointTotal(rs: seq<FullResources>): nat {
    if rs == [] then 0 else |rs[0].units.endpoints| + EndpointTotal(rs[1..])
  }

  /** The endpoints of all resources, one list after the other. */
  function JoinedEndpoints(rs: seq<FullResources>): seq<EndpointKind> {
    if rs == [] then [] else rs[0].units.endpoints + JoinedEndpoints(rs[1..])
  }

  ghost predicate SameEndpoints(rs: seq<FullResources>, ss: seq<FullResources>) {
    |rs| == |ss| && forall i :: 0 <= i < |rs| ==> rs[i].units.endpoints == ss[i].units.endpoints
  }

  /** Ports are counted for each endpoint listed, whatever the numbers of replicas and the amounts. */
  lemma {:induction false} EndpointTotalCounts(rs: seq<FullResources>, ss: seq<FullResources>)
    requires SameEndpoints(rs, ss)
    ensures EndpointTotal(rs) == |JoinedEndpoints(rs)| == EndpointTotal(ss)
  {
    if rs != [] {
      EndpointTotalCounts(rs[1..], ss[1..]);
    }
  }

  // ---------------------------------------------------------------- the packer, in place

  method CountEndpoints(res: Reservation) returns (count: nat)
    ensures count == EndpointTotal(res.resources)
  {
    count := 0;
    var rs := res.resources;
    for i := 0 to |rs|
      invariant count + EndpointTotal(rs[i..]) == EndpointTotal(rs)
    {
      count := count + |rs[i].units.endpoints|;
      assert rs[i..][1..] == rs[i + 1..];
    }
  }

  /** The innermost loop: take replicas off one resource while they fit. */
  method PlaceReplicas(available: FullUnits, resource: FullResources) returns (left: FullUnits, rest: FullResources)
    ensures (Amount(left), Wants(rest)) == Place(Amount(available), Wants(resource))
    ensures rest.units == resource.units
  {
    left, rest := available, resource;
    while rest.count > 0
      invariant rest.units == resource.units
      invariant Place(Amount(left), Wants(rest)) == Place(Amount(available), Wants(resource))
    {
      match Sub(left, rest.units)
      case Failure(_) => break;
      case Success(remaining) =>
        assert Amount(remaining) == Minus(Amount(left), Amount(rest.units));
        left, rest := remaining, rest.(count := rest.count - 1);
    }
  }

  /**
   * One node: the live prefix of `resources` is filtered in place, each kept
   * resource being written at or before the index it was read from.
   */
  method FillNode(resources: array<FullResources>, live: nat, available: FullUnits)
    returns (left: FullUnits, kept: nat)
    requires live <= resources.Length
    modifies resources
    ensures kept <= live
    ensures (Amount(left), Demands(resources[..kept])) == PackNode(Amount(available), Demands(old(resources[..live])))
  {
    ghost var before := resources[..live];
    left, kept := available, 0;
    FillEnds(Amount(available), Demands(before));
    for i := 0 to live
      invariant kept <= i
      invariant forall k :: i <= k < live ==> resources[k] == before[k]
      invariant FilledSoFar(Amount(available), Demands(before), Amount(left), Demands(before)[i..], Demands(resources[..kept]))
    {
      var rest;
      ghost var oldLeft, oldKept := left, Demands(resources[..kept]);
      left, rest := PlaceReplicas(left, resources[i]);
      FillStep(Amount(available), Demands(before), Amount(oldLeft), i, oldKept);
      if rest.count > 0 {
        resources[kept] := rest;
        kept := kept + 1;
        assert Demands(resources[..kept]) == oldKept + [Wants(rest)];
      } else {
        assert Demands(resources[..kept]) == oldKept;
      }
    }
    FillEnds(Amount(left), Demands(resources[..kept]));
    assert Demands(before)[live..] == [];
  }

  /** Packing `all` from `start` is keeping `kept` and then packing `rest` from `left`. */
  ghost predicate FilledSoFar(start: Vec, all: seq<Demand>, left: Vec, rest: seq<Demand>, kept: seq<Demand>) {
    PackNode(start, all) == (PackNode(left, rest).0, kept + PackNode(left, rest).1)
  }

  lemma {:induction false} FillEnds(start: Vec, all: seq<Demand>)
    ensures FilledSoFar(start, all, start, all[0..], [])
    ensures PackNode(start, []) == (start, []) && all + [] == all
  {
    assert all[0..] == all;
    assert [] + PackNode(start, all).1 == PackNode(start, all).1;
  }

  lemma {:induction false} FillStep(start: Vec, all: seq<Demand>, left: Vec, i: nat, kept: seq<Demand>)
    requires i < |all|
    requires FilledSoFar(start, all, left, all[i..], kept)
    ensures var (a, d) := Place(left, all[i]);
            FilledSoFar(start, all, a, all[i + 1..], if d.count > 0 then kept + [d] else kept)
  {
    var (a, d) := Place(left, all[i]);
    assert all[i..][1..] == all[i + 1..];
    var rest := PackNode(a, all[i + 1..]).1;
    assert kept + ([d] + rest) == (kept + [d]) + rest;
    assert kept + ([] + rest) == kept + rest;
  }

  /** `reservationAdjustInventory`. */
  method AdjustInventory(prev: seq<Node>, ports: nat, res: Reservation)
    returns (inventory: seq<Node>, portsLeft: nat, ok: bool)
    ensures ports < EndpointTotal(res.resources) ==> inventory == [] && portsLeft == 0 && !ok
    ensures ports >= EndpointTotal(res.resources) ==>
              && portsLeft == ports - EndpointTotal(res.resources)
              && Avails(inventory) == PackAll(Avails(prev), Demands(res.resources)).0
              && (ok <==> PackAll(Avails(prev), Demands(res.resources)).1 == [])
              && |inventory| == |prev|
              && forall i :: 0 <= i < |prev| ==> inventory[i].id == prev[i].id && inventory[i].allocateable == prev[i].allocateable
  {
    var given := res.resources;
    var resources := new FullResources[|given|](i requires 0 <= i < |given| => given[i]);
    var live: nat := |given|;
    inventory := [];
    var count := CountEndpoints(res);
    if ports < count {
      return [], 0, false;
    }
    portsLeft := ports - count;
    assert resources[..live] == given;
    PackEnds(Avails(prev), Demands(given));
    for j := 0 to |prev|
      invariant live <= resources.Length
      invariant |inventory| == j
      invariant forall i :: 0 <= i < j ==> inventory[i].id == prev[i].id && inventory[i].allocateable == prev[i].allocateable
      invariant PackedSoFar(Avails(prev), Demands(given), Avails(inventory), Avails(prev)[j..], Demands(resources[..live]))
    {
      ghost var done, left := Avails(inventory), Demands(resources[..live]);
      var available;
      available, live := FillNode(resources, live, prev[j].available);
      inventory := inventory + [Node(prev[j].id, prev[j].allocateable, available)];
      PackStep(Avails(prev), Demands(given), done, j, left);
      assert Avails(inventory) == done + [Amount(available)];
    }
    PackEnds(Avails(inventory), Demands(resources[..live]));
    assert Avails(prev)[|prev|..] == [];
    ok := live == 0;
  }

  ghost predicate PackedSoFar(avails: seq<Vec>, ds: seq<Demand>, done: seq<Vec>, todo: seq<Vec>, left: seq<Demand>) {
    PackAll(avails, ds) == (done + PackAll(todo, left).0, PackAll(todo, left).1)
  }

  lemma {:induction false} PackEnds(avails: seq<Vec>, ds: seq<Demand>)
    ensures PackedSoFar(avails, ds, [], avails[0..], ds)
    ensures PackAll([], ds) == ([], ds) && avails + [] == avails
  {
    assert avails[0..] == avails;
    assert [] + PackAll(avails, ds).0 == PackAll(avails, ds).0;
  }

  lemma {:induction false} PackStep(avails: seq<Vec>, ds: seq<Demand>, done: seq<Vec>, j: nat, left: seq<Demand>)
    requires j < |avails|
    requires PackedSoFar(avails, ds, done, avails[j..], left)
    ensures var (a, l) := PackNode(avails[j], left);
            PackedSoFar(avails, ds, done + [a], avails[j + 1..], l)
  {
    var (a, l) := PackNode(avails[j], left);
    assert avails[j..][1..] == avails[j + 1..];
    var rest := PackAll(avails[j + 1..], l).0;
    assert done + ([a] + rest) == (done + [a]) + rest;
  }

  /** A refusal for capacity leaves some resource over, and what is left over fits in what remains of no node. */
  lemma RefusalMeansFull(prev: seq<Node>, res: Reservation)
    requires prev != []
    requires PackAll(Avails(prev), Demands(res.resources)).1 != []
    ensures var (bs, left) := PackAll(Avails(prev), Demands(res.resources));
            forall d :: d in left ==> d.count > 0 && FitsNowhere(d, bs) && exists r :: r in res.resources && Amount(r.units) == d.units
  {
    var (bs, left) := PackAll(Avails(prev), Demands(res.resources));
    forall d | d in left
      ensures d.count > 0 && FitsNowhere(d, bs) && exists r :: r in res.resources && Amount(r.units) == d.units
    {
      PackAllStops(Avails(prev), Demands(res.resources), d);
      var e :| e in Demands(res.resources) && e.units == d.units;
      var k :| 0 <= k < |res.resources| && Demands(res.resources)[k] == e;
      assert res.resources[k] in res.resources;
    }
  }

  // ---------------------------------------------------------------- admission

  function Pending(rs: seq<Reservation>): seq<Reservation> {
    if rs == [] then []
    else if rs[0].active then Pending(rs[1..])
    else [rs[0]] + Pending(rs[1..])
  }

  function Requests(rs: seq<Reservation>): seq<seq<Demand>> {
    if rs == [] then [] else [Demands(rs[0].resources)] + Requests(rs[1..])
  }

  function Endpoints(rs: seq<Reservation>): nat {
    if rs == [] then 0 else EndpointTotal(rs[0].resources) + Endpoints(rs[1..])
  }

  /** All of `rs`, taken one after the other, adjust the inventory and the ports successfully. */
  predicate Admits(avails: seq<Vec>, ports: nat, rs: seq<Reservation>)
    decreases |rs|
  {
    rs != [] ==>
      && EndpointTotal(rs[0].resources) <= ports
      && var (bs, left) := PackAll(avails, Demands(rs[0].resources));
         left == [] && Admits(bs, ports - EndpointTotal(rs[0].resources), rs[1..])
  }

  /** The ports are charged independently of the packing. */
  lemma {:induction false} AdmitsSplits(avails: seq<Vec>, ports: nat, rs: seq<Reservation>)
    ensures Admits(avails, ports, rs) <==> PackEach(avails, Requests(rs)) && Endpoints(rs) <= ports
    decreases |rs|
  {
    if rs != [] {
      var (bs, left) := PackAll(avails, Demands(rs[0].resources));
      assert Requests(rs)[1..] == Requests(rs[1..]);
      if EndpointTotal(rs[0].resources) <= ports {
        AdmitsSplits(bs, ports - EndpointTotal(rs[0].resources), rs[1..]);
      }
    }
  }

  function PendingReplicas(rs: seq<Reservation>): multiset<Vec> {
    if rs == [] then multiset{}
    else (if rs[0].active then multiset{} else Replicas(Demands(rs[0].resources))) + PendingReplicas(rs[1..])
  }

  lemma {:induction false} PendingReplicasJoint(rs: seq<Reservation>)
    ensures JointReplicas(Requests(Pending(rs))) == PendingReplicas(rs)
  {
    if rs != [] {
      PendingReplicasJoint(rs[1..]);
      if !rs[0].active {
        assert Pending(rs)[1..] == Pending(rs[1..]);
        assert Requests(Pending(rs))[1..] == Requests(Pending(rs[1..]));
      }
    }
  }

  lemma PendingReplicasOne(r: Reservation)
    requires !r.active
    ensures PendingReplicas([r]) == Replicas(Demands(r.resources))
  {
    assert [r][1..] == [];
  }

  lemma {:induction false} PendingReplicasConcat(a: seq<Reservation>, b: seq<Reservation>)
    ensures PendingReplicas(a + b) == PendingReplicas(a) + PendingReplicas(b)
  {
    if a == [] {
      assert a + b == b;
    } else {
      assert (a + b)[1..] == a[1..] + b;
      PendingReplicasConcat(a[1..], b);
    }
  }

  lemma {:induction false} AppendOne(rs: seq<Reservation>, r: Reservation)
    ensures JointReplicas(Requests(rs + [r])) == JointReplicas(Requests(rs)) + Replicas(Demands(r.resources))
    ensures Endpoints(rs + [r]) == Endpoints(rs) + EndpointTotal(r.resources)
  {
    if rs == [] {
      assert rs + [r] == [r] && [r][1..] == [] && Requests([r])[1..] == [];
    } else {
      assert (rs + [r])[1..] == rs[1..] + [r];
      AppendOne(rs[1..], r);
      assert Requests(rs + [r])[1..] == Requests(rs[1..] + [r]);
      assert Requests(rs)[1..] == Requests(rs[1..]);
    }
  }

  lemma {:induction false} AdmitsSound(avails: seq<Vec>, ports: nat, rs: seq<Reservation>, request: Reservation)
    requires Admits(avails, ports, Pending(rs) + [request])
    ensures Placeable(avails, PendingReplicas(rs) + Replicas(Demands(request.resources)))
    ensures Endpoints(Pending(rs)) + EndpointTotal(request.resources) <= ports
  {
    var all := Pending(rs) + [request];
    AdmitsSplits(avails, ports, all);
    var rows := PackEachSound(avails, Requests(all));
    AppendOne(Pending(rs), request);
    PendingReplicasJoint(rs);
  }

  /** All demands that an admission test packs, in order. */
  function Tested(rs: seq<Reservation>, request: Reservation): seq<Demand> {
    FirstFit.Flat(Requests(Pending(rs) + [request]))
  }

  /** For units that are whole multiples of the later ones, and at least one node, admission is exactly having a joint placement and the ports. */
  lemma {:induction false} AdmitsIffPlaceable(avails: seq<Vec>, ports: nat, rs: seq<Reservation>, request: Reservation)
    requires avails != [] && FirstFit.Tame(Tested(rs, request))
    ensures Admits(avails, ports, Pending(rs) + [request]) <==>
            && Placeable(avails, PendingReplicas(rs) + Replicas(Demands(request.resources)))
            && Endpoints(Pending(rs)) + EndpointTotal(request.resources) <= ports
  {
    hide Placeable, FirstFit.Tame;
    var all := Pending(rs) + [request];
    AdmitsSplits(avails, ports, all);
    FirstFit.PackEachIffPlaceable(avails, Requests(all));
    AppendOne(Pending(rs), request);
    PendingReplicasJoint(rs);
  }

  /** `reservationAllocateable`: a positive answer comes with a joint placement of all pending work and enough ports for it. */
  method Allocateable(inventory: seq<Node>, ports: nat, reservations: seq<Reservation>, request: Reservation)
    returns (ok: bool)
    ensures ok <==> Admits(Avails(inventory), ports, Pending(reservations) + [request])
    ensures ok ==> Placeable(Avails(inventory), PendingReplicas(reservations) + Replicas(Demands(request.resources)))
    ensures ok ==> Endpoints(Pending(reservations)) + EndpointTotal(request.resources) <= ports
  {
    ghost var all := Pending(reservations) + [request];
    if Admits(Avails(inventory), ports, all) {
      AdmitsSound(Avails(inventory), ports, reservations, request);
    }
    var nodes, left := inventory, ports;
    for i := 0 to |reservations|
      invariant Admits(Avails(inventory), ports, all) <==> Admits(Avails(nodes), left, Pending(reservations[i..]) + [request])
    {
      assert reservations[i..][1..] == reservations[i + 1..];
      if reservations[i].active {
        continue;
      }
      ghost var rest := Pending(reservations[i..]) + [request];
      assert rest[0] == reservations[i] && rest[1..] == Pending(reservations[i + 1..]) + [request];
      var fits;
      nodes, left, fits := AdjustInventory(nodes, left, reservations[i]);
      if !fits {
        return false;
      }
    }
    assert Pending(reservations[|reservations|..]) + [request] == [request];
    assert [request][1..] == [];
    nodes, left, ok := AdjustInventory(nodes, left, request);
  }

  // ---------------------------------------------------------------- the event loop

  const WORD := 0x1_0000_0000_0000_0000

  /** The machine word the port counter lives in: additions and subtractions wrap. */
  function Wrap(x: int): nat {
    x % WORD
  }

  /**
   * What the loop keeps between events. `accepting` is a non-nil
   * `reserveChLocal`, `checking` a non-nil `runch`.
   */
  datatype State = State(
    reservations: seq<Reservation>,
    ports: nat,
    inventory: seq<Node>,
    accepting: bool,
    checking: bool)

  /** One case of the loop's `select`. Requests carry the committed amounts. */
  datatype Action =
    | DeploymentEvent(order: OrderID, name: string, deployed: bool)
    | Reserve(request: Reservation)
    | Lookup(order: OrderID, name: string)
    | Unreserve(order: OrderID)
    | TimerFired
    | CheckDone(nodes: Option<seq<Node>>)

  predicate Enabled(s: State, a: Action) {
    match a
    case Reserve(request) => s.accepting && !request.active
    case CheckDone(_) => s.checking
    case _ => true
  }

  predicate IsNamed(r: Reservation, order: OrderID, name: string) {
    r.order == order && r.name == name
  }

  /** Index of the first reservation of the order with that group name, or the length. */
  function FindNamed(rs: seq<Reservation>, order: OrderID, name: string): (i: nat)
    ensures i <= |rs|
    ensures i < |rs| ==> rs[i].order == order && rs[i].name == name
    ensures forall k :: 0 <= k < i ==> rs[k].order != order || rs[k].name != name
  {
    if rs == [] || (rs[0].order == order && rs[0].name == name) then 0
    else 1 + FindNamed(rs[1..], order, name)
  }

  /** Index of the first reservation of the order, or the length. */
  function FindOrder(rs: seq<Reservation>, order: OrderID): (i: nat)
    ensures i <= |rs|
    ensures i < |rs| ==> rs[i].order == order
    ensures forall k :: 0 <= k < i ==> rs[k].order != order
  {
    if rs == [] || rs[0].order == order then 0 else 1 + FindOrder(rs[1..], order)
  }

  /** The reservations after a deployment event: the first match takes the new flag. */
  function Marked(rs: seq<Reservation>, order: OrderID, name: string, deployed: bool): seq<Reservation> {
    var i := FindNamed(rs, order, name);
    if i == |rs| then rs else rs[i := rs[i].(active := deployed)]
  }

  /** The reservations after an unreserve: the first one of the order is gone. */
  function Without(rs: seq<Reservation>, order: OrderID): seq<Reservation> {
    var i := FindOrder(rs, order);
    if i == |rs| then rs else rs[..i] + rs[i + 1..]
  }

  function AfterDeploymentEvent(s: State, order: OrderID, name: string, deployed: bool): State {
    var i := FindNamed(s.reservations, order, name);
    if i == |s.reservations| then s
    else
      var res := s.reservations[i];
      var count := EndpointTotal(res.resources);
      s.(reservations := Marked(s.reservations, order, name, deployed),
         ports := if deployed == res.active then s.ports
                  else if deployed then Wrap(s.ports - count) else Wrap(s.ports + count),
         accepting := false,
         checking := true)
  }

  function AfterReserve(s: State, request: Reservation): State {
    if Admits(Avails(s.inventory), s.ports, Pending(s.reservations) + [request])
    then s.(reservations := s.reservations + [request])
    else s
  }

  function AfterUnreserve(s: State, order: OrderID): State {
    var i := FindOrder(s.reservations, order);
    if i == |s.reservations| then s
    else
      var res := s.reservations[i];
      s.(reservations := Without(s.reservations, order),
         ports := if res.active then Wrap(s.ports + EndpointTotal(res.resources)) else s.ports)
  }

  function Step(s: State, a: Action): State
    requires Enabled(s, a)
  {
    match a
    case DeploymentEvent(order, name, deployed) => AfterDeploymentEvent(s, order, name, deployed)
    case Reserve(request) => AfterReserve(s, request)
    case Lookup(_, _) => s
    case Unreserve(order) => AfterUnreserve(s, order)
    case TimerFired => s.(checking := true)
    case CheckDone(nodes) =>
      if nodes.None? then s.(checking := false)
      else s.(inventory := nodes.value, accepting := true, checking := false)
  }

  class InventoryService {
    var reservations: seq<Reservation>
    var availableExternalPorts: nat
    var inventory: seq<Node>
    var accepting: bool
    var checking: bool

    ghost function View(): State
      reads this
    {
      State(reservations, availableExternalPorts, inventory, accepting, checking)
    }

    constructor (externalPortQuantity: nat, startup: seq<Reservation>)
      ensures View() == State(startup, externalPortQuantity, [], false, true)
    {
      reservations := startup;
      availableExternalPorts := externalPortQuantity;
      inventory := [];
      accepting, checking := false, true;
    }

    method OnDeploymentEvent(order: OrderID, name: string, deployed: bool)
      modifies this
      ensures View() == Step(old(View()), DeploymentEvent(order, name, deployed))
    {
      var i := FindNamed(reservations, order, name);
      if i < |reservations| {
        var res := reservations[i];
        var previously := res.active;
        reservations := reservations[i := res.(active := deployed)];
        accepting := false;
        checking := true;
        if deployed != previously {
          var count := CountEndpoints(res);
          if deployed {
            availableExternalPorts := Wrap(availableExternalPorts - count);
          } else {
            availableExternalPorts := Wrap(availableExternalPorts + count);
          }
        }
      }
    }

    method OnReserve(request: Reservation) returns (granted: bool)
      requires accepting && !request.active
      modifies this
      ensures View() == Step(old(View()), Reserve(request))
      ensures granted <==> Admits(Avails(old(inventory)), old(availableExternalPorts), Pending(old(reservations)) + [request])
      ensures granted ==> reservations == old(reservations) + [request] && PendingPlaceable(View())
      ensures !granted ==> View() == old(View())
    {
      granted := Allocateable(inventory, availableExternalPorts, reservations, request);
      if granted {
        PendingReplicasConcat(reservations, [request]);
        PendingReplicasOne(request);
        reservations := reservations + [request];
      }
    }

    method OnLookup(order: OrderID, name: string) returns (found: Option<Reservation>)
      ensures found.Some? ==>
                exists i :: 0 <= i < |reservations| && found.value == reservations[i] && IsNamed(reservations[i], order, name)
                  && forall k :: 0 <= k < i ==> !IsNamed(reservations[k], order, name)
      ensures found.None? ==> forall k :: 0 <= k < |reservations| ==> !IsNamed(reservations[k], order, name)
    {
      for i := 0 to |reservations|
        invariant forall k :: 0 <= k < i ==> !IsNamed(reservations[k], order, name)
      {
        if reservations[i].order == order && reservations[i].name == name {
          return Some(reservations[i]);
        }
      }
      return None;
    }

    method OnUnreserve(order: OrderID) returns (freed: Option<Reservation>)
      modifies this
      ensures View() == Step(old(View()), Unreserve(order))
      ensures freed.None? <==> forall r :: r in old(reservations) ==> r.order != order
      ensures freed.Some? ==> freed.value in old(reservations) && freed.value.order == order
    {
      var i := FindOrder(reservations, order);
      if i == |reservations| {
        return None;
      }
      var res := reservations[i];
      reservations := reservations[..i] + reservations[i + 1..];
      if res.active {
        var count := CountEndpoints(res);
        availableExternalPorts := Wrap(availableExternalPorts + count);
      }
      freed := Some(res);
    }

    method OnTimer()
      modifies this
      ensures View() == Step(old(View()), TimerFired)
    {
      checking := true;
    }

    method OnCheckDone(nodes: Option<seq<Node>>)
      requires checking
      modifies this
      ensures View() == Step(old(View()), CheckDone(nodes))
    {
      checking := false;
      if nodes.Some? {
        inventory := nodes.value;
        accepting := true;
      }
    }
  }

  // ---------------------------------------------------------------- what every run keeps

  ghost predicate IsRun(states: seq<State>, actions: seq<Action>) {
    && |states| == |actions| + 1
    && forall i :: 0 <= i < |actions| ==> Enabled(states[i], actions[i]) && states[i + 1] == Step(states[i], actions[i])
  }

  /** Endpoints of the reservations whose allocated flag is `active`. */
  function EndpointsOf(rs: seq<Reservation>, active: bool): nat {
    if rs == [] then 0
    else (if rs[0].active == active then EndpointTotal(rs[0].resources) else 0) + EndpointsOf(rs[1..], active)
  }

  /** The port ledger: ports are either available or held by an allocated reservation, and pending work is covered. */
  predicate Ledger(s: State, quantity: nat) {
    && s.ports + EndpointsOf(s.reservations, true) == quantity
    && EndpointsOf(s.reservations, false) <= s.ports
  }

  ghost predicate PendingPlaceable(s: State) {
    Placeable(Avails(s.inventory), PendingReplicas(s.reservations))
  }

  lemma {:induction false} EndpointsConcat(a: seq<Reservation>, b: seq<Reservation>, active: bool)
    ensures EndpointsOf(a + b, active) == EndpointsOf(a, active) + EndpointsOf(b, active)
  {
    if a == [] {
      assert a + b == b;
    } else {
      assert (a + b)[1..] == a[1..] + b;
      EndpointsConcat(a[1..], b, active);
    }
  }

  lemma {:induction false} EndpointsAt(rs: seq<Reservation>, i: nat, active: bool)
    requires i < |rs|
    ensures EndpointsOf(rs, active) ==
            EndpointsOf(rs[..i] + rs[i + 1..], active) + if rs[i].active == active then EndpointTotal(rs[i].resources) else 0
  {
    assert rs == rs[..i] + rs[i..] && rs[i..][1..] == rs[i + 1..];
    EndpointsConcat(rs[..i], rs[i..], active);
    EndpointsConcat(rs[..i], rs[i + 1..], active);
  }

  lemma EndpointsFlip(rs: seq<Reservation>, i: nat, deployed: bool)
    requires i < |rs|
    ensures var count := if rs[i].active == deployed then 0 else EndpointTotal(rs[i].resources);
            var after := rs[i := rs[i].(active := deployed)];
            && EndpointsOf(after, deployed) == EndpointsOf(rs, deployed) + count
            && EndpointsOf(after, !deployed) == EndpointsOf(rs, !deployed) - count
  {
    var after := rs[i := rs[i].(active := deployed)];
    assert after[..i] + after[i + 1..] == rs[..i] + rs[i + 1..];
    EndpointsAt(rs, i, deployed);
    EndpointsAt(after, i, deployed);
    EndpointsAt(rs, i, !deployed);
    EndpointsAt(after, i, !deployed);
  }

  lemma {:induction false} EndpointsPending(rs: seq<Reservation>)
    ensures Endpoints(Pending(rs)) == EndpointsOf(rs, false)
  {
    if rs != [] {
      EndpointsPending(rs[1..]);
      if !rs[0].active {
        assert Pending(rs)[1..] == Pending(rs[1..]);
      }
    }
  }

  lemma ReserveCoversPorts(s: State, request: Reservation)
    requires !request.active
    requires Admits(Avails(s.inventory), s.ports, Pending(s.reservations) + [request])
    ensures EndpointsOf(s.reservations + [request], true) == EndpointsOf(s.reservations, true)
    ensures EndpointsOf(s.reservations + [request], false) <= s.ports
  {
    var rs := s.reservations;
    AdmitsSound(Avails(s.inventory), s.ports, rs, request);
    EndpointsPending(rs);
    EndpointsConcat(rs, [request], true);
    EndpointsConcat(rs, [request], false);
    assert [request][1..] == [];
  }

  lemma WrapInRange(x: int)
    requires 0 <= x < WORD
    ensures Wrap(x) == x
  {
  }

  lemma DeploymentKeepsLedger(s: State, order: OrderID, name: string, deployed: bool, quantity: nat)
    requires quantity < WORD && Ledger(s, quantity)
    ensures Ledger(AfterDeploymentEvent(s, order, name, deployed), quantity)
  {
    var rs := s.reservations;
    var i := FindNamed(rs, order, name);
    if i < |rs| {
      EndpointsFlip(rs, i, deployed);
      if rs[i].active != deployed {
        var count := EndpointTotal(rs[i].resources);
        WrapInRange(if deployed then s.ports - count else s.ports + count);
      }
    }
  }

  lemma UnreserveKeepsLedger(s: State, order: OrderID, quantity: nat)
    requires quantity < WORD && Ledger(s, quantity)
    ensures Ledger(AfterUnreserve(s, order), quantity)
  {
    var rs := s.reservations;
    var i := FindOrder(rs, order);
    if i < |rs| {
      EndpointsAt(rs, i, true);
      EndpointsAt(rs, i, false);
      if rs[i].active {
        WrapInRange(s.ports + EndpointTotal(rs[i].resources));
      }
    }
  }

  /**
   * Every step keeps the ledger. Since the ledger is an equation between
   * unbounded sums, it also says that the port counter never wraps.
   */
  lemma StepKeepsLedger(s: State, a: Action, quantity: nat)
    requires quantity < WORD
    requires Enabled(s, a) && Ledger(s, quantity)
    ensures Ledger(Step(s, a), quantity)
  {
    match a
    case DeploymentEvent(order, name, deployed) => DeploymentKeepsLedger(s, order, name, deployed, quantity);
    case Reserve(request) =>
      if AfterReserve(s, request) != s {
        ReserveCoversPorts(s, request);
      }
    case Unreserve(order) => UnreserveKeepsLedger(s, order, quantity);
    case Lookup(_, _) =>
    case TimerFired =>
    case CheckDone(_) =>
  }

  /** In every run that starts with the startup reservations within the quota, every state keeps the ledger. */
  lemma {:induction false} RunKeepsLedger(states: seq<State>, actions: seq<Action>, quantity: nat, i: nat)
    requires quantity < WORD
    requires IsRun(states, actions) && i < |states|
    requires states[0].ports == quantity
    requires EndpointsOf(states[0].reservations, true) == 0
    requires EndpointsOf(states[0].reservations, false) <= quantity
    ensures Ledger(states[i], quantity)
  {
    if i > 0 {
      RunKeepsLedger(states, actions, quantity, i - 1);
      StepKeepsLedger(states[i - 1], actions[i - 1], quantity);
    }
  }

  // ---------------------------------------------------------------- placeability between refreshes

  /** Leaving out one reservation leaves out its replicas if it was pending, and nothing else. */
  lemma {:induction false} WithoutFewer(rs: seq<Reservation>, order: OrderID)
    ensures PendingReplicas(Without(rs, order)) <= PendingReplicas(rs)
  {
    var i := FindOrder(rs, order);
    if i < |rs| {
      assert rs == rs[..i] + rs[i..] && rs[i..][1..] == rs[i + 1..];
      PendingReplicasConcat(rs[..i], rs[i..]);
      PendingReplicasConcat(rs[..i], rs[i + 1..]);
    }
  }

  lemma {:induction false} MarkedFewer(rs: seq<Reservation>, order: OrderID, name: string)
    ensures PendingReplicas(Marked(rs, order, name, true)) <= PendingReplicas(rs)
  {
    var i := FindNamed(rs, order, name);
    if i < |rs| {
      var marked := Marked(rs, order, name, true);
      assert rs == rs[..i] + rs[i..] && rs[i..][1..] == rs[i + 1..];
      assert marked == rs[..i] + marked[i..] && marked[i..][1..] == rs[i + 1..];
      PendingReplicasConcat(rs[..i], rs[i..]);
      PendingReplicasConcat(rs[..i], marked[i..]);
    }
  }

  lemma {:induction false} WithoutPorts(rs: seq<Reservation>, order: OrderID)
    ensures Endpoints(Pending(Without(rs, order))) <= Endpoints(Pending(rs))
  {
    var i := FindOrder(rs, order);
    EndpointsPending(rs);
    EndpointsPending(Without(rs, order));
    if i < |rs| {
      EndpointsAt(rs, i, false);
    }
  }

  /** Where what is tested afterwards is tame, freeing a reservation never turns an admissible request away. */
  lemma {:induction false} ReleaseKeepsAdmission(avails: seq<Vec>, ports: nat, rs: seq<Reservation>, request: Reservation, order: OrderID)
    requires avails != [] && Admits(avails, ports, Pending(rs) + [request])
    requires FirstFit.Tame(Tested(Without(rs, order), request))
    ensures Admits(avails, ports, Pending(Without(rs, order)) + [request])
  {
    hide Placeable, FirstFit.Tame, Without, Admits;
    var less := Without(rs, order);
    var own := Replicas(Demands(request.resources));
    AdmitsSound(avails, ports, rs, request);
    WithoutFewer(rs, order);
    WithoutPorts(rs, order);
    PlaceableShrinks(avails, PendingReplicas(rs) + own, PendingReplicas(less) + own);
    AdmitsIffPlaceable(avails, ports, less, request);
  }

  /** A granted request leaves all pending work placeable, whatever was the case before. */
  lemma ReserveEstablishesPlaceable(s: State, request: Reservation)
    requires Enabled(s, Reserve(request))
    requires Step(s, Reserve(request)) != s
    ensures PendingPlaceable(Step(s, Reserve(request)))
  {
    AdmitsSound(Avails(s.inventory), s.ports, s.reservations, request);
    PendingReplicasConcat(s.reservations, [request]);
    PendingReplicasOne(request);
  }

  /** Steps that neither replace the inventory nor return an allocated reservation to pending. */
  predicate BetweenRefreshes(a: Action) {
    match a
    case CheckDone(nodes) => nodes.None?
    case DeploymentEvent(_, _, deployed) => deployed
    case _ => true
  }

  lemma StepKeepsPlaceable(s: State, a: Action)
    requires Enabled(s, a) && BetweenRefreshes(a)
    requires PendingPlaceable(s)
    ensures PendingPlaceable(Step(s, a))
  {
    match a
    case DeploymentEvent(order, name, _) =>
      MarkedFewer(s.reservations, order, name);
      PlaceableShrinks(Avails(s.inventory), PendingReplicas(s.reservations), PendingReplicas(Marked(s.reservations, order, name, true)));
    case Reserve(request) =>
      if AfterReserve(s, request) != s {
        ReserveEstablishesPlaceable(s, request);
      }
    case Unreserve(order) =>
      WithoutFewer(s.reservations, order);
      PlaceableShrinks(Avails(s.inventory), PendingReplicas(s.reservations), PendingReplicas(Without(s.reservations, order)));
    case Lookup(_, _) =>
    case TimerFired =>
    case CheckDone(_) =>
  }

  /** Between refreshes, every run keeps the pending work jointly placeable on the inventory. */
  lemma {:induction false} RunKeepsPlaceable(states: seq<State>, actions: seq<Action>, i: nat)
    requires IsRun(states, actions) && i < |states|
    requires forall k :: 0 <= k < i ==> BetweenRefreshes(actions[k])
    requires PendingPlaceable(states[0])
    ensures PendingPlaceable(states[i])
  {
    if i > 0 {
      RunKeepsPlaceable(states, actions, i - 1);
      StepKeepsPlaceable(states[i - 1], actions[i - 1]);
    }
  }
}
