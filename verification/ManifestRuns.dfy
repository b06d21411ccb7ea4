/**
 * The runs of the manifest manager (provider/manifest/manager.go) told by
 * what happened in them: which version a manifest must have, what each
 * answer means, and what every held lease has been sent.
 */
module ManifestRuns {
  import opened Wrappers
  import opened Manifest
  import opened CrossValidation
  import opened ManifestManager

  // ---------------------------------------------------------------- what is held, by the actions alone

  /** All versions announced. */
  function VersionsOf(actions: seq<Action>): seq<Version> {
    if actions == [] then []
    else
      var last := actions[|actions| - 1];
      VersionsOf(actions[..|actions| - 1]) + if last.VersionUpdated? then [last.version] else []
  }

  function RequestsOf(actions: seq<Action>): seq<Request> {
    if actions == [] then []
    else
      var last := actions[|actions| - 1];
      RequestsOf(actions[..|actions| - 1]) + if last.ManifestReceived? then [last.request] else []
  }

  /** The deployment last fetched. */
  function FetchedOf(actions: seq<Action>): Option<Deployment> {
    if actions == [] then None
    else
      var last := actions[|actions| - 1];
      if last.Fetched? && last.data.Some? then last.data else FetchedOf(actions[..|actions| - 1])
  }

  /** The leases won and not removed, each removal passing over the successor of a lease it removes. */
  function LeasesOf(actions: seq<Action>): seq<Lease> {
    if actions == [] then []
    else
      var last, before := actions[|actions| - 1], LeasesOf(actions[..|actions| - 1]);
      match last
      case LeaseWon(lease) => before + [lease]
      case LeaseRemoved(id) => Left(before, id)
      case _ => before
  }

  ghost predicate Ended(actions: seq<Action>) {
    exists k :: 0 <= k < |actions| && actions[k] == Shutdown
  }

  lemma KeptByEmit(c: Config, s: State, free: Request -> bool)
    ensures var t := Emit(ValidateIfFetched(c, s, free));
            && t.versions == s.versions && t.accepted == s.accepted && t.leases == s.leases && t.stage == s.stage
            && t.data == s.data && t.fetching == s.fetching
  {
  }

  /** What each step records. */
  lemma RecordStep(c: Config, s: State, a: Action)
    requires Enabled(s, a)
    ensures var t := Step(c, s, a);
            && t.versions == (if a.VersionUpdated? then s.versions + [a.version] else s.versions)
            && t.accepted == (if a.ManifestReceived? then s.accepted + [a.request] else s.accepted)
            && t.data == (if a.Fetched? && a.data.Some? then a.data
                          else if a.VersionUpdated? && s.data.Some? then Some(s.data.value.(version := a.version)) else s.data)
            && (t.stage == Stopped <==> a == Shutdown || a == StopTimerFired)
  {
    hide Removing, Emit, ValidateIfFetched;
    match a
    case LeaseWon(lease) => KeptByEmission(s.(leases := s.leases + [lease]));
    case ManifestReceived(request, free) =>
      KeptByEmit(c, s.(requests := s.requests + [request], accepted := s.accepted + [request]), free);
    case Fetched(data, free) => KeptByEmit(c, s.(fetching := false, data := data), free);
    case _ =>
  }

  lemma KeptByEmission(s: State)
    ensures var t := Emit(s);
            && t.versions == s.versions && t.accepted == s.accepted && t.leases == s.leases && t.stage == s.stage
            && t.data == s.data && t.fetching == s.fetching && t.manifests == s.manifests
  {
  }

  lemma LeasesStep(c: Config, s: State, a: Action)
    requires Enabled(s, a) && Step(c, s, a).stage != Panicked
    ensures Step(c, s, a).leases ==
            match a
            case LeaseWon(lease) => s.leases + [lease]
            case LeaseRemoved(id) => Left(s.leases, id)
            case _ => s.leases
  {
    hide Removing, Emit, ValidateIfFetched;
    match a
    case LeaseWon(lease) => KeptByEmission(s.(leases := s.leases + [lease]));
    case LeaseRemoved(id) => RemovalLeaves(s.leases, id);
    case ManifestReceived(request, free) =>
      KeptByEmit(c, s.(requests := s.requests + [request], accepted := s.accepted + [request]), free);
    case Fetched(data, free) => KeptByEmit(c, s.(fetching := false, data := data), free);
    case _ =>
  }

  /** In every run, what the manager holds is what the actions say it should. */
  lemma {:induction false} RunRecords(c: Config, states: seq<State>, actions: seq<Action>, i: nat)
    requires IsRun(c, states, actions) && i < |states|
    ensures states[i].versions == VersionsOf(actions[..i])
    ensures states[i].accepted == RequestsOf(actions[..i])
    ensures states[i].data.Some? <==> FetchedOf(actions[..i]).Some?
    ensures states[i].data.Some? ==> states[i].data.value.groups == FetchedOf(actions[..i]).value.groups
    ensures states[i].data.Some? && VersionsOf(actions[..i]) == [] ==> states[i].data == FetchedOf(actions[..i])
  {
    hide Step;
    if i > 0 {
      RunRecords(c, states, actions, i - 1);
      RecordStep(c, states[i - 1], actions[i - 1]);
      assert actions[..i][..i - 1] == actions[..i - 1];
    }
  }

  /** A run has stopped if and only if it was shut down. */
  lemma {:induction false} StoppedIff(c: Config, states: seq<State>, actions: seq<Action>, i: nat)
    requires IsRun(c, states, actions) && i < |states|
    ensures states[i].stage == Stopped <==> Ended(actions[..i])
  {
    hide Step;
    if i > 0 {
      StoppedIff(c, states, actions, i - 1);
      RecordStep(c, states[i - 1], actions[i - 1]);
      StopTimerNeverFires(c, states, actions, i - 1);
      EndedNext(actions, i - 1);
    }
  }

  lemma EndedNext(actions: seq<Action>, i: nat)
    requires i < |actions|
    ensures Ended(actions[..i + 1]) <==> Ended(actions[..i]) || actions[i] == Shutdown
  {
    if Ended(actions[..i]) {
      var k :| 0 <= k < i && actions[..i][k] == Shutdown;
      assert actions[..i + 1][k] == Shutdown;
    }
    if actions[i] == Shutdown {
      assert actions[..i + 1][i] == Shutdown;
    }
    if Ended(actions[..i + 1]) {
      var k :| 0 <= k < i + 1 && actions[..i + 1][k] == Shutdown;
      assert k < i ==> actions[..i][k] == Shutdown;
    }
  }

  lemma {:induction false} RunLeases(c: Config, states: seq<State>, actions: seq<Action>, i: nat)
    requires IsRun(c, states, actions) && i < |states| && states[i].stage != Panicked
    ensures states[i].leases == LeasesOf(actions[..i])
  {
    hide Step;
    if i > 0 {
      assert Enabled(states[i - 1], actions[i - 1]);
      RunLeases(c, states, actions, i - 1);
      LeasesStep(c, states[i - 1], actions[i - 1]);
      assert actions[..i][..i - 1] == actions[..i - 1];
    }
  }

  // ---------------------------------------------------------------- the version a manifest must have

  /** The version announced last, or that of the fetched deployment if none was. */
  function VersionDue(actions: seq<Action>): Option<Version> {
    var announced := VersionsOf(actions);
    if announced != [] then Some(announced[|announced| - 1])
    else if FetchedOf(actions).Some? then Some(FetchedOf(actions).value.version)
    else None
  }

  /** In every run, a manifest is only accepted if its hash is the version due, and it fits the groups of the fetched deployment. */
  lemma AcceptedIsDue(c: Config, states: seq<State>, actions: seq<Action>, i: nat, k: nat)
    requires IsRun(c, states, actions) && i < |actions|
    requires |states[i].sent| <= k < |states[i + 1].sent|
    requires states[i + 1].sent[k].Answered? && states[i + 1].sent[k].answer == Accept
    ensures var content := states[i + 1].sent[k].request.content;
            && VersionDue(actions[..i + 1]).Some? && c.hash(content) == VersionDue(actions[..i + 1])
            && FetchedOf(actions[..i + 1]).Some? && Accepted(content, FetchedOf(actions[..i + 1]).value.groups)
  {
    hide Step, Accepted;
    RunJustifies(c, states, actions, i);
    assert Justified(c, states[i + 1], |states[i].sent|, k);
    RunRecords(c, states, actions, i + 1);
  }

  /** A refused version differs from the one due. */
  lemma RefusedIsNotDue(c: Config, states: seq<State>, actions: seq<Action>, i: nat, k: nat)
    requires IsRun(c, states, actions) && i < |actions|
    requires |states[i].sent| <= k < |states[i + 1].sent|
    requires states[i + 1].sent[k].Answered? && states[i + 1].sent[k].answer == VersionMismatch
    ensures var content := states[i + 1].sent[k].request.content;
            VersionDue(actions[..i + 1]).Some? && c.hash(content).Some? && c.hash(content) != VersionDue(actions[..i + 1])
  {
    hide Step, Accepted;
    RunExplains(c, states, actions, i);
    assert ExplainedAt(c, actions[i], states[i + 1], k);
    RunRecords(c, states, actions, i + 1);
  }

  // ---------------------------------------------------------------- what each answer means

  /** What holds after a step in which a request got this answer. */
  ghost predicate Explained(c: Config, a: Action, t: State, r: Request, answer: Answer) {
    match answer
    case Accept => t.leases != [] && (a.ManifestReceived? || a.Fetched?) && a.free(r) && Current(c, t, r.content)
    case NotRunning => a == Shutdown || a == StopTimerFired
    case NoLease => t.leases == []
    case FetchFailed => a.Fetched? && a.data.None?
    case Unhashable => c.hash(r.content).None?
    case VersionMismatch =>
      t.data.Some? && c.hash(r.content).Some? && c.hash(r.content).value != Expected(t.versions, t.data.value)
    case Malformed => !c.wellFormed(r.content)
    case DeploymentMismatch => t.data.Some? && !Accepted(r.content, t.data.value.groups)
    case HostnamesRefused => (a.ManifestReceived? || a.Fetched?) && !a.free(r)
  }

  ghost predicate ExplainedAt(c: Config, a: Action, t: State, k: nat)
    requires k < |t.sent|
  {
    t.sent[k].Answered? ==> Explained(c, a, t, t.sent[k].request, t.sent[k].answer)
  }

  ghost predicate ExplainedFrom(c: Config, a: Action, from: nat, t: State) {
    forall k :: from <= k < |t.sent| ==> ExplainedAt(c, a, t, k)
  }

  lemma {:induction false} RefusalsAre(j: Judge, rs: seq<Request>)
    ensures forall k :: 0 <= k < |Refusals(j, rs)| ==>
              var e := Refusals(j, rs)[k]; e.Answered? && e.answer == Verdict(j, e.request) && e.answer != Accept
  {
    hide Verdict;
    if rs != [] {
      RefusalsAre(j, rs[..|rs| - 1]);
    }
  }

  ghost predicate Judges(c: Config, a: Action, t: State, j: Judge) {
    && (a.ManifestReceived? || a.Fetched?) && t.data.Some?
    && j == Judge(c, Expected(t.versions, t.data.value), t.data.value.groups, a.free)
  }

  lemma VerdictExplained(c: Config, a: Action, t: State, j: Judge, r: Request)
    requires Judges(c, a, t, j)
    requires Verdict(j, r) == Accept ==> t.leases != []
    ensures Explained(c, a, t, r, Verdict(j, r))
  {
  }

  lemma NoLeaseExplained(c: Config, a: Action, t: State, r: Request)
    requires t.leases == []
    ensures Explained(c, a, t, r, NoLease)
  {
  }

  /** Judging what waits and then publishing explains every answer it sends. */
  lemma JudgedExplained(c: Config, a: Action, s: State, t: State)
    requires (a.ManifestReceived? || a.Fetched?) && s.pending == [] && t == Emit(ValidateIfFetched(c, s, a.free))
    ensures ExplainedFrom(c, a, |s.sent|, t)
  {
    hide Verdict, Explained, Passing, Refusals;
    var v := ValidateIfFetched(c, s, a.free);
    KeptByEmit(c, s, a.free);
    if s.data.Some? && s.requests != [] {
      var j := Judge(c, Expected(s.versions, s.data.value), s.data.value.groups, a.free);
      var refused, passing := Refusals(j, s.requests), Passing(j, s.requests);
      RefusalsAre(j, s.requests);
      PassingAccepted(j, s.requests);
      assert v.sent == s.sent + refused && v.pending == passing;
      forall k | |s.sent| <= k < |t.sent| ensures ExplainedAt(c, a, t, k) {
        if k < |v.sent| {
          assert t.sent[k] == v.sent[k] == refused[k - |s.sent|];
          VerdictExplained(c, a, t, j, t.sent[k].request);
        } else {
          LaterSent(v, k);
          if t.leases == [] {
            NoLeaseExplained(c, a, t, t.sent[k].request);
          } else if t.sent[k].Answered? {
            var n :| 0 <= n < |passing| && passing[n] == t.sent[k].request;
            VerdictExplained(c, a, t, j, passing[n]);
          }
        }
      }
    } else {
      forall k | |s.sent| <= k < |t.sent| ensures ExplainedAt(c, a, t, k) {
        LaterSent(v, k);
        if t.leases == [] {
          NoLeaseExplained(c, a, t, t.sent[k].request);
        }
      }
    }
  }

  /** What publishing adds. */
  lemma LaterSent(v: State, k: nat)
    requires |v.sent| <= k < |Emit(v).sent|
    ensures var e := Emit(v).sent[k];
            if v.leases == [] then e.Answered? && e.answer == NoLease
            else e.Answered? ==> e.answer == Accept && exists n :: 0 <= n < |v.pending| && v.pending[n] == e.request
  {
    if v.leases != [] && v.data.Some? && v.manifests != [] {
      var published := |v.sent| + |v.leases|;
      if k >= published {
        assert Emit(v).sent[k].request == v.pending[k - published];
      }
    }
  }

  lemma FilledExplained(c: Config, a: Action, s: State, t: State, answer: Answer)
    requires t.sent == FillAll(s, answer).sent && t.leases == s.leases
    requires forall r :: Explained(c, a, t, r, answer)
    ensures ExplainedFrom(c, a, |s.sent|, t)
  {
    hide Explained;
  }

  lemma StepExplains(c: Config, s: State, a: Action)
    requires AtHead(s) && Enabled(s, a)
    ensures ExplainedFrom(c, a, |s.sent|, Step(c, s, a))
  {
    hide Emit, ValidateIfFetched, Removing;
    var t := Step(c, s, a);
    match a
    case Shutdown => FilledExplained(c, a, s, t, NotRunning);
    case StopTimerFired => FilledExplained(c, a, s, t, NotRunning);
    case LeaseWon(lease) =>
      var v := s.(leases := s.leases + [lease]);
      KeptByEmission(v);
      forall k | |s.sent| <= k < |t.sent| ensures ExplainedAt(c, a, t, k) {
        LaterSent(v, k);
      }
    case LeaseRemoved(id) => RemovalSendsNothing(s, id);
    case ManifestReceived(request, free) =>
      var v := s.(requests := s.requests + [request], accepted := s.accepted + [request]);
      JudgedExplained(c, a, v, Emit(ValidateIfFetched(c, v, free)));
      ExplainedKept(c, a, |s.sent|, Emit(ValidateIfFetched(c, v, free)), t);
    case VersionUpdated(_) =>
    case Fetched(data, free) =>
      var v := s.(fetching := false);
      if data.None? {
        FilledExplained(c, a, v, t, FetchFailed);
      } else {
        var w := v.(data := data);
        JudgedExplained(c, a, w, Emit(ValidateIfFetched(c, w, free)));
        ExplainedKept(c, a, |s.sent|, Emit(ValidateIfFetched(c, w, free)), t);
      }
  }

  lemma ExplainedKept(c: Config, a: Action, from: nat, t: State, u: State)
    requires ExplainedFrom(c, a, from, t)
    requires u.sent == t.sent && u.leases == t.leases && u.data == t.data && u.versions == t.versions
    ensures ExplainedFrom(c, a, from, u)
  {
    hide Accepted;
    forall k | from <= k < |u.sent| ensures ExplainedAt(c, a, u, k) {
      assert ExplainedAt(c, a, t, k);
    }
  }

  /** In every step of every run, each answer is given for the reason it names, and acceptance only of a valid manifest with free hostnames. */
  lemma RunExplains(c: Config, states: seq<State>, actions: seq<Action>, i: nat)
    requires IsRun(c, states, actions) && i < |actions|
    ensures ExplainedFrom(c, actions[i], |states[i].sent|, states[i + 1])
  {
    hide Step, ExplainedFrom;
    RunAnswersOnce(c, states, actions, i);
    StepExplains(c, states[i], actions[i]);
  }

  // ---------------------------------------------------------------- what is kept, fetched and published

  /** Of the requests judged together, the first valid one is the one whose manifest is kept. */
  lemma {:induction false} FirstValidKept(j: Judge, rs: seq<Request>)
    ensures Passing(j, rs) == [] <==> forall i :: 0 <= i < |rs| ==> Verdict(j, rs[i]) != Accept
    ensures Passing(j, rs) != [] ==>
              exists i :: 0 <= i < |rs| && Verdict(j, rs[i]) == Accept && Passing(j, rs)[0] == rs[i]
                && forall k :: 0 <= k < i ==> Verdict(j, rs[k]) != Accept
  {
    hide Verdict;
    if rs != [] {
      var n := |rs| - 1;
      var front := rs[..n];
      FirstValidKept(j, front);
      assert forall i :: 0 <= i < n ==> front[i] == rs[i];
      if Passing(j, front) != [] {
        var i :| 0 <= i < |front| && Verdict(j, front[i]) == Accept && Passing(j, front)[0] == front[i]
                 && forall k :: 0 <= k < i ==> Verdict(j, front[k]) != Accept;
        assert Passing(j, rs)[0] == rs[i];
      }
    }
  }

  /** The manifest kept in a step that judges the waiting requests is that of the first valid one. */
  lemma KeptIsFirstValid(c: Config, s: State, free: Request -> bool)
    requires s.data.Some? && s.requests != []
    ensures var j := Judge(c, Expected(s.versions, s.data.value), s.data.value.groups, free);
            var t := ValidateIfFetched(c, s, free);
            if forall i :: 0 <= i < |s.requests| ==> Verdict(j, s.requests[i]) != Accept then t.manifests == s.manifests
            else exists i :: 0 <= i < |s.requests| && Verdict(j, s.requests[i]) == Accept
                   && t.manifests == s.manifests + [s.requests[i].content]
                   && forall k :: 0 <= k < i ==> Verdict(j, s.requests[k]) != Accept
  {
    hide Verdict;
    FirstValidKept(Judge(c, Expected(s.versions, s.data.value), s.data.value.groups, free), s.requests);
  }

  /** After a lease or a manifest has arrived, the deployment is known or being fetched; a result ends the fetch. */
  lemma FetchStarted(c: Config, s: State, a: Action)
    requires Enabled(s, a) && (a.LeaseWon? || a.ManifestReceived? || a.Fetched?)
    ensures if a.Fetched? then !Step(c, s, a).fetching else Step(c, s, a).data.Some? || Step(c, s, a).fetching
  {
  }

  lemma FetchStep(c: Config, s: State, a: Action)
    requires Enabled(s, a) && (s.fetching ==> s.data.None?)
    ensures Step(c, s, a).fetching ==> Step(c, s, a).data.None?
  {
    hide Removing, Emit, ValidateIfFetched;
    match a
    case LeaseWon(lease) => KeptByEmission(s.(leases := s.leases + [lease]));
    case ManifestReceived(request, free) =>
      KeptByEmit(c, s.(requests := s.requests + [request], accepted := s.accepted + [request]), free);
    case Fetched(data, free) => KeptByEmit(c, s.(fetching := false, data := data), free);
    case _ =>
  }

  /** In every run, the deployment is only being fetched while it is not known. */
  lemma {:induction false} FetchesUnknownOnly(c: Config, states: seq<State>, actions: seq<Action>, i: nat)
    requires IsRun(c, states, actions) && i < |states|
    ensures states[i].fetching ==> states[i].data.None?
  {
    hide Step;
    if i > 0 {
      FetchesUnknownOnly(c, states, actions, i - 1);
      FetchStep(c, states[i - 1], actions[i - 1]);
    }
  }

  /** Every held lease has been sent the newest manifest. */
  ghost predicate Served(s: State) {
    s.data.Some? && s.manifests != [] ==>
      forall l :: 0 <= l < |s.leases| ==> WasSent(s.sent, s.leases[l], Last(s.manifests))
  }

  ghost predicate WasSent(sent: seq<Emission>, lease: Lease, content: Content) {
    exists k :: 0 <= k < |sent| && sent[k].Published? && sent[k].lease == lease && sent[k].content == content
  }

  lemma EmitServes(s: State)
    ensures Served(Emit(s))
  {
    var t := Emit(s);
    if s.leases != [] && s.data.Some? && s.manifests != [] {
      forall l | 0 <= l < |t.leases| ensures WasSent(t.sent, t.leases[l], Last(t.manifests)) {
        assert t.sent[|s.sent| + l] == Published(s.leases[l], Last(s.manifests), s.data.value);
      }
    }
  }

  lemma ServedKept(s: State, t: State)
    requires Served(s)
    requires t.sent == s.sent && t.manifests == s.manifests && (t.data.Some? ==> s.data.Some?)
    requires forall l :: l in t.leases ==> l in s.leases
    ensures Served(t)
  {
    if t.data.Some? && t.manifests != [] {
      forall l | 0 <= l < |t.leases| ensures WasSent(t.sent, t.leases[l], Last(t.manifests)) {
        assert t.leases[l] in t.leases;
        var k :| 0 <= k < |s.leases| && s.leases[k] == t.leases[l];
        assert WasSent(s.sent, s.leases[k], Last(s.manifests));
      }
    }
  }

  lemma ServedMore(s: State, t: State)
    requires Served(s)
    requires s.sent <= t.sent && t.manifests == s.manifests && t.data == s.data && t.leases == s.leases
    ensures Served(t)
  {
    if t.data.Some? && t.manifests != [] {
      forall l | 0 <= l < |t.leases| ensures WasSent(t.sent, t.leases[l], Last(t.manifests)) {
        assert WasSent(s.sent, s.leases[l], Last(s.manifests));
      }
    }
  }

  lemma {:induction false} LeftIsHeld(leases: seq<Lease>, id: nat)
    ensures forall l :: l in Left(leases, id) ==> l in leases
  {
    if leases != [] {
      if leases[0].id != id {
        LeftIsHeld(leases[1..], id);
      } else if |leases| > 1 {
        LeftIsHeld(leases[2..], id);
      }
    }
  }

  lemma StepServes(c: Config, s: State, a: Action)
    requires Served(s) && Enabled(s, a)
    ensures Served(Step(c, s, a))
  {
    hide Served, Emit, ValidateIfFetched, Removing;
    var t := Step(c, s, a);
    match a
    case Shutdown => ServedMore(s, t);
    case StopTimerFired => ServedMore(s, t);
    case LeaseWon(lease) =>
      var v := Emit(s.(leases := s.leases + [lease]));
      EmitServes(s.(leases := s.leases + [lease]));
      ServedKept(v, t);
    case LeaseRemoved(id) =>
      if t.stage == Panicked {
        ServedKept(s, t);
      } else {
        RemovalLeaves(s.leases, id);
        LeftIsHeld(s.leases, id);
        ServedKept(s, t);
      }
    case ManifestReceived(request, free) =>
      var v := ValidateIfFetched(c, s.(requests := s.requests + [request], accepted := s.accepted + [request]), free);
      EmitServes(v);
      ServedKept(Emit(v), t);
    case VersionUpdated(_) => ServedKept(s, t);
    case Fetched(data, free) =>
      if data.None? {
        ServedMore(s, t);
      } else {
        var v := ValidateIfFetched(c, s.(fetching := false, data := data), free);
        EmitServes(v);
        ServedKept(Emit(v), t);
      }
  }

  /** In every state of every run, every lease held has been sent the newest validated manifest, if there is one. */
  lemma {:induction false} RunServes(c: Config, states: seq<State>, actions: seq<Action>, i: nat)
    requires IsRun(c, states, actions) && i < |states|
    ensures Served(states[i])
  {
    hide Step;
    if i > 0 {
      RunServes(c, states, actions, i - 1);
      StepServes(c, states[i - 1], actions[i - 1]);
    }
  }
}
