/**
 * The deployment manager (provider/cluster/manager.go): a select loop that
 * drives one-shot deploy and teardown goroutines. Every case of the select
 * and every move of a goroutine is one step; runs interleave them freely.
 */
module DeploymentManager {
  import opened Wrappers
  import opened Manifest

  datatype Phase = DeployActive | DeployPending | DeployComplete | TeardownActive | TeardownPending | TeardownComplete

  /** A started goroutine whose result the loop has not read yet. A deploy reads the manager's group when it gets to it. */
  datatype Operation =
    | Deploy(group: Option<Group>, result: Option<bool>)
    | Teardown(result: Option<bool>)

  datatype StopReason = HostnamesRefused | ShutdownRequest | DeployFailed | TeardownDone

  /**
   * `reserving` is a non-nil `reserveHostnamesCh`, `runch` names the
   * operation whose channel the loop listens on. The last five fields are
   * history: groups received, group of the last successful deploy, number
   * of deploys started, a teardown request handled after the hostnames
   * resolved, and a reached panic.
   */
  datatype State = State(
    phase: Phase,
    mgroup: Group,
    reserving: bool,
    operations: map<nat, Operation>,
    nextOperation: nat,
    runch: Option<nat>,
    stopped: Option<StopReason>,
    received: seq<Group>,
    deployed: Option<Group>,
    deploys: nat,
    torn: bool,
    panicked: bool)

  datatype Action =
    | HostnamesResolved(granted: bool)
    | Shutdown
    | Update(group: Group)
    | TeardownRequest
    | ResultRead
    | GroupRead(op: nat)
    | OperationDone(op: nat, success: bool)

  function Initial(group: Group): State {
    State(DeployActive, group, true, map[], 0, None, None, [group], None, 0, false, false)
  }

  predicate Enabled(s: State, a: Action) {
    match a
    case HostnamesResolved(_) => s.stopped.None? && s.reserving
    case Shutdown => s.stopped.None?
    case Update(_) => s.stopped.None?
    case TeardownRequest => s.stopped.None?
    case ResultRead => s.stopped.None? && s.runch.Some? && s.runch.value in s.operations && s.operations[s.runch.value].result.Some?
    case GroupRead(op) => op in s.operations && s.operations[op].Deploy? && s.operations[op].group.None?
    case OperationDone(op, _) =>
      && op in s.operations && s.operations[op].result.None?
      && (s.operations[op].Deploy? ==> s.operations[op].group.Some?)
  }

  /** `do`: a new goroutine, and the loop listens to it from now on. */
  function Start(s: State, op: Operation): State {
    s.(operations := s.operations[s.nextOperation := op],
       nextOperation := s.nextOperation + 1,
       runch := Some(s.nextOperation))
  }

  function StartDeploy(s: State): State {
    Start(s.(phase := DeployActive, deploys := s.deploys + 1), Deploy(None, None))
  }

  function StartTeardown(s: State): State {
    Start(s.(phase := TeardownActive), Teardown(None))
  }

  function AfterUpdate(s: State, group: Group): State {
    var t := s.(mgroup := group, received := s.received + [group]);
    match s.phase
    case DeployActive => t.(phase := DeployPending)
    case DeployPending => t
    case DeployComplete => StartDeploy(t)
    case _ => t
  }

  function AfterTeardownRequest(s: State): State {
    var t := s.(torn := s.torn || !s.reserving);
    match s.phase
    case DeployActive => t.(phase := TeardownPending)
    case DeployPending => t.(phase := TeardownPending)
    case DeployComplete => StartTeardown(t)
    case _ => t
  }

  function AfterResult(s: State): State
    requires Enabled(s, ResultRead)
  {
    var op := s.operations[s.runch.value];
    var ok := op.result.value;
    var t := s.(runch := None,
                operations := s.operations - {s.runch.value},
                deployed := if op.Deploy? && ok then op.group else s.deployed);
    match s.phase
    case DeployActive => if ok then t.(phase := DeployComplete) else t.(stopped := Some(DeployFailed))
    case DeployPending => if ok then StartDeploy(t) else t.(stopped := Some(DeployFailed))
    case DeployComplete => t.(panicked := true)
    case TeardownActive => t.(phase := TeardownComplete, stopped := Some(TeardownDone))
    case TeardownPending => StartTeardown(t)
    case TeardownComplete => t.(panicked := true)
  }

  function Step(s: State, a: Action): State
    requires Enabled(s, a)
  {
    match a
    case HostnamesResolved(granted) =>
      var t := s.(reserving := false);
      if granted then StartDeploy(t) else t.(stopped := Some(HostnamesRefused))
    case Shutdown => s.(stopped := Some(ShutdownRequest))
    case Update(group) => AfterUpdate(s, group)
    case TeardownRequest => AfterTeardownRequest(s)
    case ResultRead => AfterResult(s)
    case GroupRead(op) => s.(operations := s.operations[op := s.operations[op].(group := Some(s.mgroup))])
    case OperationDone(op, success) => s.(operations := s.operations[op := s.operations[op].(result := Some(success))])
  }

  ghost predicate IsRun(states: seq<State>, actions: seq<Action>) {
    && |states| == |actions| + 1
    && forall i :: 0 <= i < |actions| ==> Enabled(states[i], actions[i]) && states[i + 1] == Step(states[i], actions[i])
  }

  // ---------------------------------------------------------------- the loop's own fields

  class Manager {
    var phase: Phase
    var mgroup: Group
    var reserving: bool
    var operations: map<nat, Operation>
    var nextOperation: nat
    var runch: Option<nat>
    var stopped: Option<StopReason>
    ghost var received: seq<Group>
    ghost var deployed: Option<Group>
    ghost var deploys: nat
    ghost var torn: bool

    /** The panics are shown unreachable here, so the view never has one. */
    ghost function View(): State
      reads this
    {
      State(phase, mgroup, reserving, operations, nextOperation, runch, stopped, received, deployed, deploys, torn, false)
    }

    constructor (group: Group)
      ensures View() == Initial(group)
    {
      phase, mgroup, reserving, operations, nextOperation := DeployActive, group, true, map[], 0;
      runch, stopped := None, None;
      received, deployed, deploys, torn := [group], None, 0, false;
    }

    method Do(op: Operation)
      modifies this`operations, this`nextOperation, this`runch
      ensures View() == Start(old(View()), op)
    {
      operations := operations[nextOperation := op];
      runch := Some(nextOperation);
      nextOperation := nextOperation + 1;
    }

    method BeginDeploy()
      modifies this
      ensures View() == StartDeploy(old(View()))
    {
      phase := DeployActive;
      deploys := deploys + 1;
      Do(Deploy(None, None));
    }

    method BeginTeardown()
      modifies this
      ensures View() == StartTeardown(old(View()))
    {
      phase := TeardownActive;
      Do(Teardown(None));
    }

    method OnHostnames(granted: bool)
      requires Enabled(View(), HostnamesResolved(granted))
      modifies this
      ensures View() == Step(old(View()), HostnamesResolved(granted))
    {
      reserving := false;
      if granted {
        BeginDeploy();
      } else {
        stopped := Some(HostnamesRefused);
      }
    }

    method OnUpdate(group: Group)
      requires Enabled(View(), Update(group))
      modifies this
      ensures View() == Step(old(View()), Update(group))
    {
      mgroup := group;
      received := received + [group];
      match phase
      case DeployActive => phase := DeployPending;
      case DeployPending =>
      case DeployComplete => BeginDeploy();
      case TeardownActive =>
      case TeardownPending =>
      case TeardownComplete =>
    }

    /** The branches that panic are dead: they are left out, which the invariant justifies. */
    method OnResult()
      requires Invariant(View()) && Enabled(View(), ResultRead)
      modifies this
      ensures View() == Step(old(View()), ResultRead)
    {
      ResultNeverPanics(View());
      var op := operations[runch.value];
      var ok := op.result.value;
      deployed := if op.Deploy? && ok then op.group else deployed;
      operations := operations - {runch.value};
      runch := None;
      if phase == DeployActive {
        if ok {
          phase := DeployComplete;
        } else {
          stopped := Some(DeployFailed);
        }
      } else if phase == DeployPending {
        if ok {
          BeginDeploy();
        } else {
          stopped := Some(DeployFailed);
        }
      } else if phase == TeardownActive {
        phase := TeardownComplete;
        stopped := Some(TeardownDone);
      } else {
        BeginTeardown();
      }
    }

    method OnTeardown()
      requires Enabled(View(), TeardownRequest)
      modifies this
      ensures View() == Step(old(View()), TeardownRequest)
    {
      torn := torn || !reserving;
      match phase
      case DeployActive => phase := TeardownPending;
      case DeployPending => phase := TeardownPending;
      case DeployComplete => BeginTeardown();
      case TeardownActive =>
      case TeardownPending =>
      case TeardownComplete =>
    }
  }

  // ---------------------------------------------------------------- what every run keeps

  /** The operations still running are exactly the one the loop listens on. */
  predicate OneOperation(s: State) {
    && s.operations.Keys == (if s.runch.Some? then {s.runch.value} else {})
    && (s.runch.Some? ==> s.runch.value < s.nextOperation)
  }

  predicate Deploying(p: Phase) {
    p == DeployActive || p == DeployPending || p == TeardownPending
  }

  predicate TearingDown(p: Phase) {
    p == TeardownPending || p == TeardownActive || p == TeardownComplete
  }

  /** Which operation is in flight in which phase. */
  predicate PhaseFits(s: State) {
    if s.reserving then s.runch.None? && Deploying(s.phase)
    else if s.stopped.Some? then true
    else if s.runch.None? then s.phase == DeployComplete
    else
      && s.runch.value in s.operations
      && if s.operations[s.runch.value].Deploy? then Deploying(s.phase) else s.phase == TeardownActive
  }

  /** A deploy that nothing has superseded has either not read its group yet or read the newest one. */
  predicate DeploysNewest(s: State) {
    && s.received != [] && s.mgroup == s.received[|s.received| - 1]
    && (s.phase == DeployComplete ==> s.deployed == Some(s.mgroup))
    && (s.phase == DeployActive && !s.reserving && s.stopped.None? && s.runch.Some? && s.runch.value in s.operations ==>
          var op := s.operations[s.runch.value];
          op.Deploy? && (op.group.None? ==> op.result.None?) && (op.group.Some? ==> op.group.value == s.mgroup))
  }

  predicate TeardownSticks(s: State) {
    && (s.torn ==> !s.reserving && TearingDown(s.phase) && (s.stopped.Some? ==> s.stopped.value == ShutdownRequest || s.stopped.value == TeardownDone))
    && (s.stopped == Some(TeardownDone) ==> s.phase == TeardownComplete)
  }

  predicate Invariant(s: State) {
    !s.panicked && OneOperation(s) && PhaseFits(s) && DeploysNewest(s) && TeardownSticks(s)
  }

  /** Neither "INVALID STATE" panic can be reached. */
  lemma ResultNeverPanics(s: State)
    requires Invariant(s) && Enabled(s, ResultRead)
    ensures s.phase != DeployComplete && s.phase != TeardownComplete && !AfterResult(s).panicked
  {
    assert s.runch.value in s.operations.Keys;
  }

  lemma ResultKeepsInvariant(s: State)
    requires Invariant(s) && Enabled(s, ResultRead)
    ensures Invariant(AfterResult(s))
  {
    assert s.operations.Keys - {s.runch.value} == {};
  }

  lemma StepKeepsInvariant(s: State, a: Action)
    requires Invariant(s) && Enabled(s, a)
    ensures Invariant(Step(s, a))
  {
    match a
    case ResultRead => ResultKeepsInvariant(s);
    case HostnamesResolved(_) =>
    case Shutdown =>
    case Update(_) =>
    case TeardownRequest =>
    case GroupRead(op) => assert op in s.operations.Keys;
    case OperationDone(op, _) => assert op in s.operations.Keys;
  }

  /** Every state of every run: no panic, at most one operation in flight, and a completed deploy is of the newest group. */
  lemma {:induction false} RunSafe(states: seq<State>, actions: seq<Action>, group: Group, i: nat)
    requires IsRun(states, actions) && states[0] == Initial(group) && i < |states|
    ensures Invariant(states[i])
    ensures !states[i].panicked && |states[i].operations| <= 1
    ensures states[i].phase == DeployComplete ==>
              states[i].received != [] && states[i].deployed == Some(states[i].received[|states[i].received| - 1])
  {
    if i > 0 {
      RunSafe(states, actions, group, i - 1);
      StepKeepsInvariant(states[i - 1], actions[i - 1]);
    }
    OneAtMost(states[i]);
  }

  lemma OneAtMost(s: State)
    requires OneOperation(s)
    ensures |s.operations| <= 1
  {
    assert |s.operations| == |s.operations.Keys|;
  }

  // ---------------------------------------------------------------- teardown requests

  lemma TornStep(s: State, a: Action)
    requires Invariant(s) && Enabled(s, a) && s.torn
    ensures Step(s, a).torn && Step(s, a).deploys == s.deploys
  {
  }

  /** Once a teardown request has been handled after the hostnames resolved, no deploy starts, and only a shutdown or a completed teardown ends the run. */
  lemma {:induction false} TeardownHonoured(states: seq<State>, actions: seq<Action>, i: nat)
    requires IsRun(states, actions) && i < |states|
    requires Invariant(states[0]) && states[0].torn
    ensures states[i].torn && states[i].deploys == states[0].deploys
    ensures states[i].stopped.Some? ==>
              states[i].stopped.value == ShutdownRequest || (states[i].stopped.value == TeardownDone && states[i].phase == TeardownComplete)
    ensures states[0].stopped.None? && states[i].stopped == Some(TeardownDone) ==>
              exists k :: 0 <= k < i && ReadsTeardown(states[k], actions[k])
    ensures Invariant(states[i])
  {
    hide Step;
    if i > 0 {
      TeardownHonoured(states, actions, i - 1);
      StepStops(states[i - 1], actions[i - 1]);
      TornStep(states[i - 1], actions[i - 1]);
      StepKeepsInvariant(states[i - 1], actions[i - 1]);
    }
  }

  /** From a teardown request handled in `s` on, no run starts a deploy. */
  ghost predicate NoDeployAfterRequest(s: State)
    requires Enabled(s, TeardownRequest)
  {
    forall states: seq<State>, actions: seq<Action>, i: nat ::
      IsRun(states, actions) && states[0] == Step(s, TeardownRequest) && i < |states| ==>
        states[i].deploys == s.deploys
  }

  /** A request is honoured exactly when the hostname reservation has resolved: an earlier one is forgotten. */
  lemma HonouredIffResolved(s: State)
    requires Invariant(s) && Enabled(s, TeardownRequest)
    ensures NoDeployAfterRequest(s) <==> !s.reserving
  {
    var t := Step(s, TeardownRequest);
    StepKeepsInvariant(s, TeardownRequest);
    RequestRecords(s);
    if s.reserving {
      var granted := HostnamesResolved(true);
      var states, actions := [t, Step(t, granted)], [granted];
      assert IsRun(states, actions) && states[0] == t;
      assert states[1].deploys == t.deploys + 1;
    } else {
      forall states: seq<State>, actions: seq<Action>, i: nat | IsRun(states, actions) && states[0] == t && i < |states|
        ensures states[i].deploys == s.deploys
      {
        TeardownHonoured(states, actions, i);
      }
    }
  }

  // ---------------------------------------------------------------- runs by what happened in them

  /** The operation whose result is read. */
  function OperationRead(s: State): Operation
    requires Enabled(s, ResultRead)
  {
    s.operations[s.runch.value]
  }

  ghost predicate ReadsTeardown(s: State, a: Action) {
    a == ResultRead && Enabled(s, ResultRead) && OperationRead(s).Teardown?
  }

  /** What ends a run, as the source has it: refused hostnames, a shutdown, the end of a teardown, or a failed deploy that no teardown waits for. */
  function StopCause(s: State, a: Action): Option<StopReason>
    requires Enabled(s, a)
  {
    match a
    case HostnamesResolved(granted) => if granted then None else Some(HostnamesRefused)
    case Shutdown => Some(ShutdownRequest)
    case ResultRead =>
      if OperationRead(s).Teardown? then Some(TeardownDone)
      else if OperationRead(s).result == Some(false) && s.phase != TeardownPending then Some(DeployFailed)
      else None
    case _ => None
  }

  lemma StepStops(s: State, a: Action)
    requires Invariant(s) && Enabled(s, a)
    ensures Step(s, a).stopped == if s.stopped.Some? then s.stopped else StopCause(s, a)
  {
  }

  ghost predicate StoppedBy(states: seq<State>, actions: seq<Action>, k: nat, reason: StopReason)
    requires IsRun(states, actions)
  {
    k < |actions| && states[k].stopped.None? && StopCause(states[k], actions[k]) == Some(reason)
  }

  /** A run has stopped for a reason if and only if that is what happened while it was running. */
  lemma {:induction false} RunStopsIff(states: seq<State>, actions: seq<Action>, group: Group, i: nat, reason: StopReason)
    requires IsRun(states, actions) && states[0] == Initial(group) && i < |states|
    ensures states[i].stopped == Some(reason) <==> exists k: nat :: k < i && StoppedBy(states, actions, k, reason)
  {
    hide Step, StopCause, Invariant;
    if i > 0 {
      RunStopsIff(states, actions, group, i - 1, reason);
      RunSafe(states, actions, group, i - 1);
      StepStops(states[i - 1], actions[i - 1]);
      if states[i].stopped == Some(reason) && states[i - 1].stopped.None? {
        assert StoppedBy(states, actions, i - 1, reason);
      }
      if k: nat :| k < i && StoppedBy(states, actions, k, reason) {
        StopsForGood(states, actions, group, k, i);
      }
    }
  }

  lemma {:induction false} StopsForGood(states: seq<State>, actions: seq<Action>, group: Group, k: nat, i: nat)
    requires IsRun(states, actions) && states[0] == Initial(group) && k < i < |states|
    requires states[k].stopped.None? && StopCause(states[k], actions[k]).Some?
    ensures states[i].stopped == StopCause(states[k], actions[k])
    decreases i
  {
    hide Step, StopCause, Invariant;
    RunSafe(states, actions, group, i - 1);
    StepStops(states[i - 1], actions[i - 1]);
    if k < i - 1 {
      StopsForGood(states, actions, group, k, i - 1);
    }
  }

  /** A run that counts as torn down has read the result of a teardown. */
  lemma TornDownByTeardown(states: seq<State>, actions: seq<Action>, group: Group, i: nat)
    requires IsRun(states, actions) && states[0] == Initial(group) && i < |states|
    requires states[i].stopped == Some(TeardownDone)
    ensures exists k :: 0 <= k < i && ReadsTeardown(states[k], actions[k])
  {
    RunStopsIff(states, actions, group, i, TeardownDone);
    var k: nat :| k < i && StoppedBy(states, actions, k, TeardownDone);
    assert ReadsTeardown(states[k], actions[k]);
  }

  /** The group of the last update, or the first one. */
  function Newest(group: Group, actions: seq<Action>): Group {
    if actions == [] then group
    else
      var last := actions[|actions| - 1];
      if last.Update? then last.group else Newest(group, actions[..|actions| - 1])
  }

  lemma {:induction false} RunHoldsNewest(states: seq<State>, actions: seq<Action>, group: Group, i: nat)
    requires IsRun(states, actions) && states[0] == Initial(group) && i < |states|
    ensures states[i].mgroup == Newest(group, actions[..i])
  {
    hide Step;
    if i > 0 {
      RunHoldsNewest(states, actions, group, i - 1);
      StepGroup(states[i - 1], actions[i - 1]);
      assert actions[..i][..i - 1] == actions[..i - 1];
    }
  }

  lemma StepGroup(s: State, a: Action)
    requires Enabled(s, a)
    ensures Step(s, a).mgroup == if a.Update? then a.group else s.mgroup
  {
  }

  /** Step `k` read the success of a deploy of `group`. */
  ghost predicate Deployed(states: seq<State>, actions: seq<Action>, k: nat, group: Group)
    requires IsRun(states, actions)
  {
    && k < |actions| && actions[k] == ResultRead && Enabled(states[k], ResultRead)
    && OperationRead(states[k]) == Deploy(Some(group), Some(true))
  }

  lemma ReachesComplete(s: State, a: Action)
    requires Invariant(s) && Enabled(s, a) && Step(s, a).phase == DeployComplete
    ensures !a.Update?
    ensures s.phase != DeployComplete ==> a == ResultRead && OperationRead(s) == Deploy(Some(s.mgroup), Some(true))
  {
  }

  /** In every run: when the state is deploy-complete, the success of a deploy of the group of the last update was read. */
  lemma {:induction false} CompleteMeansDeployed(states: seq<State>, actions: seq<Action>, group: Group, i: nat)
    requires IsRun(states, actions) && states[0] == Initial(group) && i < |states|
    requires states[i].phase == DeployComplete
    ensures exists k: nat :: k < i && Deployed(states, actions, k, Newest(group, actions[..i]))
  {
    hide Step, Invariant;
    if i > 0 {
      RunSafe(states, actions, group, i - 1);
      RunHoldsNewest(states, actions, group, i - 1);
      ReachesComplete(states[i - 1], actions[i - 1]);
      assert actions[..i][..i - 1] == actions[..i - 1];
      if states[i - 1].phase == DeployComplete {
        CompleteMeansDeployed(states, actions, group, i - 1);
      } else {
        assert Deployed(states, actions, i - 1, Newest(group, actions[..i]));
      }
    }
  }

  /** What starts a deploy: granted hostnames, an update of a complete deployment, or the success of a deploy that an update has superseded. */
  predicate StartsDeploy(s: State, a: Action)
    requires Enabled(s, a)
  {
    match a
    case HostnamesResolved(granted) => granted
    case Update(_) => s.phase == DeployComplete
    case ResultRead => s.phase == DeployPending && OperationRead(s).result == Some(true)
    case _ => false
  }

  ghost function DeployStarts(states: seq<State>, actions: seq<Action>, i: nat): nat
    requires IsRun(states, actions) && i < |states|
  {
    if i == 0 then 0 else DeployStarts(states, actions, i - 1) + if StartsDeploy(states[i - 1], actions[i - 1]) then 1 else 0
  }

  /** A teardown request is remembered from when the hostnames have resolved. */
  ghost predicate RequestedAt(states: seq<State>, actions: seq<Action>, k: nat)
    requires IsRun(states, actions)
  {
    k < |actions| && actions[k] == TeardownRequest && exists h: nat :: h < k && actions[h].HostnamesResolved?
  }

  /** What the run's records mean: deploys started, hostnames resolved, teardown requests since. */
  lemma {:induction false} RunRecords(states: seq<State>, actions: seq<Action>, group: Group, i: nat)
    requires IsRun(states, actions) && states[0] == Initial(group) && i < |states|
    ensures states[i].deploys == DeployStarts(states, actions, i)
    ensures states[i].reserving <==> forall h :: 0 <= h < i ==> !actions[h].HostnamesResolved?
    ensures states[i].torn <==> exists k: nat :: k < i && RequestedAt(states, actions, k)
  {
    hide Step, StartsDeploy;
    if i > 0 {
      RunRecords(states, actions, group, i - 1);
      RecordStep(states[i - 1], actions[i - 1]);
      if actions[i - 1] == TeardownRequest && !states[i - 1].reserving {
        assert RequestedAt(states, actions, i - 1);
      }
    }
  }

  lemma RecordStep(s: State, a: Action)
    requires Enabled(s, a)
    ensures Step(s, a).deploys == s.deploys + if StartsDeploy(s, a) then 1 else 0
    ensures Step(s, a).reserving == (s.reserving && !a.HostnamesResolved?)
    ensures Step(s, a).torn == (s.torn || (a == TeardownRequest && !s.reserving))
  {
    hide AfterResult, AfterUpdate, AfterTeardownRequest;
    match a
    case ResultRead => ResultRecords(s);
    case Update(group) => UpdateRecords(s, group);
    case TeardownRequest => RequestRecords(s);
    case _ =>
  }

  lemma ResultRecords(s: State)
    requires Enabled(s, ResultRead)
    ensures AfterResult(s).deploys == s.deploys + if StartsDeploy(s, ResultRead) then 1 else 0
    ensures AfterResult(s).reserving == s.reserving && AfterResult(s).torn == s.torn
  {
  }

  lemma UpdateRecords(s: State, group: Group)
    ensures AfterUpdate(s, group).deploys == s.deploys + if s.phase == DeployComplete then 1 else 0
    ensures AfterUpdate(s, group).reserving == s.reserving && AfterUpdate(s, group).torn == s.torn
  {
  }

  lemma RequestRecords(s: State)
    ensures AfterTeardownRequest(s).deploys == s.deploys && AfterTeardownRequest(s).reserving == s.reserving
    ensures AfterTeardownRequest(s).torn == (s.torn || !s.reserving)
  {
  }
}
