/**
 * What the steps of the inventory loop (provider/cluster/inventory.go) do to
 * what it holds, and what its runs say about when it takes requests and which
 * inventory it judges them by.
 */
module InventoryRuns {
  import opened Wrappers
  import opened Packing
  import opened Inventory
  import FirstFit

  // ---------------------------------------------------------------- single steps

  ghost predicate FirstNamed(rs: seq<Reservation>, i: nat, order: OrderID, name: string) {
    i < |rs| && IsNamed(rs[i], order, name) && forall k :: 0 <= k < i ==> !IsNamed(rs[k], order, name)
  }

  ghost predicate FirstOfOrder(rs: seq<Reservation>, i: nat, order: OrderID) {
    i < |rs| && rs[i].order == order && forall k :: 0 <= k < i ==> rs[k].order != order
  }

  lemma {:induction false} FoundNamed(rs: seq<Reservation>, i: nat, order: OrderID, name: string)
    requires FirstNamed(rs, i, order, name)
    ensures FindNamed(rs, order, name) == i
  {
    assert forall k :: 0 <= k < i ==> !IsNamed(rs[k], order, name);
  }

  lemma {:induction false} FoundOrder(rs: seq<Reservation>, i: nat, order: OrderID)
    requires FirstOfOrder(rs, i, order)
    ensures FindOrder(rs, order) == i
  {
  }

  /** A deployment event sets the flag of the first reservation it names to whether it was deployed; every other reservation stays as it is. */
  lemma EventMarks(s: State, i: nat, order: OrderID, name: string, deployed: bool)
    requires FirstNamed(s.reservations, i, order, name)
    ensures var t := Step(s, DeploymentEvent(order, name, deployed));
            && |t.reservations| == |s.reservations|
            && t.reservations[i].active == deployed
            && t.reservations[i].(active := s.reservations[i].active) == s.reservations[i]
            && (forall k :: 0 <= k < |s.reservations| && k != i ==> t.reservations[k] == s.reservations[k])
            && t.inventory == s.inventory
  {
    FoundNamed(s.reservations, i, order, name);
  }

  /** Freeing an order removes its first reservation and keeps the others in order; the ports come back exactly if it was allocated. */
  lemma UnreserveRemoves(s: State, i: nat, order: OrderID, quantity: nat)
    requires FirstOfOrder(s.reservations, i, order)
    requires quantity < WORD && Ledger(s, quantity)
    ensures var t := Step(s, Unreserve(order));
            && t.reservations == s.reservations[..i] + s.reservations[i + 1..]
            && t.ports == s.ports + (if s.reservations[i].active then EndpointTotal(s.reservations[i].resources) else 0)
            && t.inventory == s.inventory && t.accepting == s.accepting
  {
    FoundOrder(s.reservations, i, order);
    EndpointsAt(s.reservations, i, true);
  }

  /** Events and requests that name nothing that is held change nothing. */
  lemma UnknownIgnored(s: State, order: OrderID, name: string, deployed: bool)
    ensures (forall r :: r in s.reservations ==> !IsNamed(r, order, name)) ==> Step(s, DeploymentEvent(order, name, deployed)) == s
    ensures (forall r :: r in s.reservations ==> r.order != order) ==> Step(s, Unreserve(order)) == s
  {
    var f := FindNamed(s.reservations, order, name);
    assert f < |s.reservations| ==> s.reservations[f] in s.reservations && IsNamed(s.reservations[f], order, name);
    var g := FindOrder(s.reservations, order);
    assert g < |s.reservations| ==> s.reservations[g] in s.reservations;
  }

  /** For tame units and at least one node, a request is granted if and only if it has a joint placement with everything pending and the ports suffice. */
  lemma GrantedIffPlaceable(s: State, request: Reservation)
    requires Enabled(s, Reserve(request)) && s.inventory != []
    requires FirstFit.Tame(Tested(s.reservations, request))
    ensures Step(s, Reserve(request)).reservations == s.reservations + [request] <==>
            && Placeable(Avails(s.inventory), PendingReplicas(s.reservations) + Replicas(Demands(request.resources)))
            && Endpoints(Pending(s.reservations)) + EndpointTotal(request.resources) <= s.ports
    ensures Step(s, Reserve(request)).reservations == s.reservations + [request] || Step(s, Reserve(request)) == s
  {
    AdmitsIffPlaceable(Avails(s.inventory), s.ports, s.reservations, request);
    assert |s.reservations + [request]| == |s.reservations| + 1;
  }

  // ---------------------------------------------------------------- when requests are taken

  /** A deployment event that names a reservation that is held. */
  ghost predicate Touches(s: State, a: Action) {
    a.DeploymentEvent? && exists k :: 0 <= k < |s.reservations| && IsNamed(s.reservations[k], a.order, a.name)
  }

  predicate Refreshes(a: Action) {
    a.CheckDone? && a.nodes.Some?
  }

  lemma TouchFound(s: State, a: Action)
    requires a.DeploymentEvent?
    ensures Touches(s, a) <==> FindNamed(s.reservations, a.order, a.name) < |s.reservations|
  {
    var f := FindNamed(s.reservations, a.order, a.name);
    if f < |s.reservations| {
      assert IsNamed(s.reservations[f], a.order, a.name);
    }
  }

  /** What one step does to the two flags and the inventory. */
  lemma FlagStep(s: State, a: Action)
    requires Enabled(s, a)
    ensures Step(s, a).accepting == (Refreshes(a) || (s.accepting && !Touches(s, a)))
    ensures !a.CheckDone? && (s.checking || Touches(s, a) || a.TimerFired?) ==> Step(s, a).checking
    ensures Step(s, a).inventory == if Refreshes(a) then a.nodes.value else s.inventory
  {
    if a.DeploymentEvent? {
      TouchFound(s, a);
    }
  }

  /** Step `k` refreshed the inventory and no deployment event has touched a reservation since. */
  ghost predicate FreshSince(states: seq<State>, actions: seq<Action>, k: nat, j: nat)
    requires |states| == |actions| + 1 && j < |states|
  {
    k < j && Refreshes(actions[k]) && forall m :: k < m < j ==> !Touches(states[m], actions[m])
  }

  /** In every run from startup, requests are taken if and only if the inventory was refreshed after the last deployment event that touched a reservation. */
  lemma {:induction false} AcceptingIff(states: seq<State>, actions: seq<Action>, j: nat)
    requires IsRun(states, actions) && j < |states| && !states[0].accepting
    ensures states[j].accepting <==> exists k: nat :: FreshSince(states, actions, k, j)
  {
    if j > 0 {
      var i := j - 1;
      AcceptingIff(states, actions, i);
      FlagStep(states[i], actions[i]);
      if Refreshes(actions[i]) {
        assert FreshSince(states, actions, i, j);
      } else if states[i].accepting && !Touches(states[i], actions[i]) {
        var k: nat :| FreshSince(states, actions, k, i);
        assert FreshSince(states, actions, k, j);
      } else if k: nat :| FreshSince(states, actions, k, j) {
        assert k < i;
        assert FreshSince(states, actions, k, i);
      }
    }
  }

  /** Between an event that touches a reservation and the next request that is taken, the inventory is refreshed. */
  lemma {:induction false} HeldBack(states: seq<State>, actions: seq<Action>, i: nat, j: nat)
    requires IsRun(states, actions) && i < j < |states|
    requires Touches(states[i], actions[i]) && states[j].accepting
    ensures exists k :: i < k < j && Refreshes(actions[k])
  {
    FlagStep(states[j - 1], actions[j - 1]);
    if !Refreshes(actions[j - 1]) {
      HeldBack(states, actions, i, j - 1);
    } else {
      assert i < j - 1 < j;
    }
  }

  lemma NoGrantOnStaleInventory(states: seq<State>, actions: seq<Action>, i: nat, j: nat)
    requires IsRun(states, actions) && i < j < |actions|
    requires Touches(states[i], actions[i]) && actions[j].Reserve?
    ensures exists k :: i < k < j && Refreshes(actions[k])
  {
    assert Enabled(states[j], actions[j]);
    HeldBack(states, actions, i, j);
  }

  /** After such an event, or the timer, a check is under way until one is done. */
  lemma {:induction false} CheckUnderWay(states: seq<State>, actions: seq<Action>, i: nat, j: nat)
    requires IsRun(states, actions) && i < j < |states|
    requires Touches(states[i], actions[i]) || actions[i].TimerFired?
    requires forall k :: i < k < j ==> !actions[k].CheckDone?
    ensures states[j].checking
    decreases j
  {
    FlagStep(states[j - 1], actions[j - 1]);
    if i < j - 1 {
      CheckUnderWay(states, actions, i, j - 1);
    }
  }

  /** The nodes of the last successful check, or those of the start. */
  function LastChecked(start: seq<Node>, actions: seq<Action>): seq<Node> {
    if actions == [] then start
    else
      var last := actions[|actions| - 1];
      if last.CheckDone? && last.nodes.Some? then last.nodes.value else LastChecked(start, actions[..|actions| - 1])
  }

  lemma {:induction false} InventoryIsLastChecked(states: seq<State>, actions: seq<Action>, j: nat)
    requires IsRun(states, actions) && j < |states|
    ensures states[j].inventory == LastChecked(states[0].inventory, actions[..j])
  {
    if j > 0 {
      InventoryIsLastChecked(states, actions, j - 1);
      FlagStep(states[j - 1], actions[j - 1]);
      assert actions[..j][..j - 1] == actions[..j - 1];
    }
  }
}
