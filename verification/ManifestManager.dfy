/**
 * The manifest manager of one deployment (provider/manifest/manager.go): a
 * select loop that collects leases and manifests, fetches the deployment
 * once, validates what it was given, publishes it and answers the requests.
 */
module ManifestManager {
  import opened Wrappers
  import opened Manifest
  import opened CrossValidation

  type Version = string
  type Content = seq<Group>

  datatype Request = Request(id: nat, content: Content)
  datatype Lease = Lease(id: nat, group: string)
  datatype Deployment = Deployment(version: Version, groups: seq<ResourceGroup>)

  datatype Answer =
    | Accept
    | NotRunning
    | NoLease
    | FetchFailed
    | Unhashable
    | VersionMismatch
    | Malformed
    | DeploymentMismatch
    | HostnamesRefused

  /** What the manager sends out: events on the bus and answers on the requests' channels. */
  datatype Emission =
    | Published(lease: Lease, content: Content, deployment: Deployment)
    | Answered(request: Request, answer: Answer)

  /** The manifest hash and the checks of a manifest by itself. */
  datatype Config = Config(hash: Content -> Option<Version>, wellFormed: Content -> bool)

  datatype Stage = Looping | Stopped | Panicked

  /** `pending` keeps a validated request whole, of which the source keeps the channel; `accepted` and `sent` are history. */
  datatype State = State(
    stage: Stage,
    requests: seq<Request>,
    pending: seq<Request>,
    leases: seq<Lease>,
    manifests: seq<Content>,
    versions: seq<Version>,
    data: Option<Deployment>,
    fetching: bool,
    stopTimer: bool,
    accepted: seq<Request>,
    sent: seq<Emission>)

  /** `free` answers the question whether a request's hostnames can be reserved at that moment. */
  datatype Action =
    | Shutdown
    | StopTimerFired
    | LeaseWon(lease: Lease)
    | LeaseRemoved(id: nat)
    | ManifestReceived(request: Request, free: Request -> bool)
    | VersionUpdated(version: Version)
    | Fetched(data: Option<Deployment>, free: Request -> bool)

  // ---------------------------------------------------------------- validation

  /** What requests are judged by during one step. */
  datatype Judge = Judge(config: Config, expected: Version, groups: seq<ResourceGroup>, free: Request -> bool)

  function Expected(versions: seq<Version>, data: Deployment): Version {
    if versions != [] then versions[|versions| - 1] else data.version
  }

  ghost function Verdict(j: Judge, r: Request): Answer {
    var hash := j.config.hash(r.content);
    if hash.None? then Unhashable
    else if hash.value != j.expected then VersionMismatch
    else if !j.config.wellFormed(r.content) then Malformed
    else if !Accepted(r.content, j.groups) then DeploymentMismatch
    else if !j.free(r) then HostnamesRefused
    else Accept
  }

  /** The request itself if it is valid. */
  ghost function Kept(j: Judge, r: Request): seq<Request> {
    if Verdict(j, r) == Accept then [r] else []
  }

  /** The answer to it if it is not. */
  ghost function Refusal(j: Judge, r: Request): seq<Emission> {
    if Verdict(j, r) == Accept then [] else [Answered(r, Verdict(j, r))]
  }

  ghost function Passing(j: Judge, rs: seq<Request>): seq<Request> {
    if rs == [] then [] else Passing(j, rs[..|rs| - 1]) + Kept(j, rs[|rs| - 1])
  }

  ghost function Refusals(j: Judge, rs: seq<Request>): seq<Emission> {
    if rs == [] then [] else Refusals(j, rs[..|rs| - 1]) + Refusal(j, rs[|rs| - 1])
  }

  function Answers(rs: seq<Request>, answer: Answer): seq<Emission> {
    seq(|rs|, i requires 0 <= i < |rs| => Answered(rs[i], answer))
  }

  function Publications(leases: seq<Lease>, content: Content, data: Deployment): seq<Emission> {
    seq(|leases|, i requires 0 <= i < |leases| => Published(leases[i], content, data))
  }

  function Last(manifests: seq<Content>): Content
    requires manifests != []
  {
    manifests[|manifests| - 1]
  }

  // ---------------------------------------------------------------- the steps

  function FillAll(s: State, answer: Answer): State {
    s.(pending := [], requests := [], sent := s.sent + Answers(s.pending, answer) + Answers(s.requests, answer))
  }

  function Emit(s: State): State {
    if s.leases == [] then FillAll(s, NoLease)
    else if s.data.None? || s.manifests == [] then s
    else s.(pending := [],
            sent := s.sent + Publications(s.leases, Last(s.manifests), s.data.value) + Answers(s.pending, Accept))
  }

  /** Of a batch of valid manifests the first is kept. */
  ghost function Validate(j: Judge, s: State): State {
    var passing := Passing(j, s.requests);
    s.(requests := [],
       pending := s.pending + passing,
       sent := s.sent + Refusals(j, s.requests),
       manifests := if passing == [] then s.manifests else s.manifests + [passing[0].content])
  }

  ghost function ValidateIfFetched(c: Config, s: State, free: Request -> bool): State {
    if s.data.None? || s.requests == [] then s
    else Validate(Judge(c, Expected(s.versions, s.data.value), s.data.value.groups, free), s)
  }

  function MaybeScheduleStop(s: State): State {
    if s.leases != [] || s.manifests != [] then s.(stopTimer := false) else s
  }

  function MaybeFetch(s: State): State {
    s.(fetching := s.fetching || s.data.None?)
  }

  /**
   * Lease removal deletes from the list while ranging over it: the range
   * reads the old length of the shared array, and slicing past the current
   * length panics.
   */
  function Removing(leases: seq<Lease>, length: nat, i: nat, id: nat): Option<seq<Lease>>
    requires length <= |leases| && i <= |leases|
    decreases |leases| - i
  {
    if i == |leases| then Some(leases[..length])
    else if leases[i].id != id then Removing(leases, length, i + 1, id)
    else if length < i + 1 then None
    else Removing(Shifted(leases, length, i), length - 1, i + 1, id)
  }

  function Shifted(leases: seq<Lease>, length: nat, i: nat): (r: seq<Lease>)
    requires i < length <= |leases|
    ensures |r| == |leases|
  {
    leases[..i] + leases[i + 1..length] + leases[length - 1..]
  }

  function AfterRemoval(s: State, id: nat): State {
    var left := Removing(s.leases, |s.leases|, 0, id);
    if left.None? then s.(stage := Panicked) else MaybeScheduleStop(s.(leases := left.value))
  }

  function AfterVersion(s: State, version: Version): State {
    s.(versions := s.versions + [version],
       data := if s.data.Some? then Some(s.data.value.(version := version)) else None)
  }

  ghost function AfterManifest(c: Config, s: State, request: Request, free: Request -> bool): State {
    var t := s.(requests := s.requests + [request], accepted := s.accepted + [request]);
    MaybeFetch(MaybeScheduleStop(Emit(ValidateIfFetched(c, t, free))))
  }

  ghost function AfterFetch(c: Config, s: State, data: Option<Deployment>, free: Request -> bool): State {
    var t := s.(fetching := false);
    if data.None? then FillAll(t, FetchFailed)
    else MaybeScheduleStop(Emit(ValidateIfFetched(c, t.(data := data), free)))
  }

  function Initial(): State {
    State(Looping, [], [], [], [], [], None, false, false, [], [])
  }

  predicate Enabled(s: State, a: Action) {
    && s.stage == Looping
    && (a.Fetched? ==> s.fetching)
    && (a.StopTimerFired? ==> s.stopTimer)
  }

  ghost function Step(c: Config, s: State, a: Action): State {
    match a
    case Shutdown => FillAll(s, NotRunning).(stage := Stopped)
    case StopTimerFired => FillAll(s, NotRunning).(stage := Stopped)
    case LeaseWon(lease) => MaybeFetch(MaybeScheduleStop(Emit(s.(leases := s.leases + [lease]))))
    case LeaseRemoved(id) => AfterRemoval(s, id)
    case ManifestReceived(request, free) => AfterManifest(c, s, request, free)
    case VersionUpdated(version) => AfterVersion(s, version)
    case Fetched(data, free) => AfterFetch(c, s, data, free)
  }

  ghost predicate IsRun(c: Config, states: seq<State>, actions: seq<Action>) {
    && |states| == |actions| + 1
    && states[0] == Initial()
    && forall i :: 0 <= i < |actions| ==> Enabled(states[i], actions[i]) && states[i + 1] == Step(c, states[i], actions[i])
  }

  // ---------------------------------------------------------------- every request is answered exactly once

  function Replied(e: Emission): multiset<Request> {
    if e.Answered? then multiset{e.request} else multiset{}
  }

  function Replies(sent: seq<Emission>): multiset<Request> {
    if sent == [] then multiset{} else Replies(sent[..|sent| - 1]) + Replied(sent[|sent| - 1])
  }

  lemma {:induction false} RepliesConcat(a: seq<Emission>, b: seq<Emission>)
    ensures Replies(a + b) == Replies(a) + Replies(b)
  {
    if b == [] {
      assert a + b == a;
    } else {
      assert (a + b)[..|a + b| - 1] == a + b[..|b| - 1];
      RepliesConcat(a, b[..|b| - 1]);
    }
  }

  lemma {:induction false} RepliesOfAnswers(rs: seq<Request>, answer: Answer)
    ensures Replies(Answers(rs, answer)) == multiset(rs)
  {
    if rs != [] {
      var n := |rs| - 1;
      RepliesOfAnswers(rs[..n], answer);
      assert Answers(rs, answer)[..n] == Answers(rs[..n], answer);
      assert rs == rs[..n] + [rs[n]];
    }
  }

  lemma {:induction false} RepliesOfPublications(leases: seq<Lease>, content: Content, data: Deployment)
    ensures Replies(Publications(leases, content, data)) == multiset{}
  {
    if leases != [] {
      var n := |leases| - 1;
      RepliesOfPublications(leases[..n], content, data);
      assert Publications(leases, content, data)[..n] == Publications(leases[..n], content, data);
    }
  }

  lemma NoReplies()
    ensures Replies([]) == multiset{}
  {
  }

  lemma Added(a: seq<Request>, b: seq<Request>, c: seq<Request>)
    requires c == a + b
    ensures multiset(c) == multiset(a) + multiset(b)
  {
  }

  lemma OneJudged(j: Judge, r: Request)
    ensures multiset{r} == multiset(Kept(j, r)) + Replies(Refusal(j, r))
  {
    hide Verdict;
    assert Refusal(j, r)[..0] == [];
    assert Replies([]) == multiset{};
  }

  lemma {:induction false} JudgedOnce(j: Judge, rs: seq<Request>)
    ensures multiset(rs) == multiset(Passing(j, rs)) + Replies(Refusals(j, rs))
  {
    hide Kept, Refusal, Replies;
    if rs == [] {
      NoReplies();
    } else {
      var n := |rs| - 1;
      JudgedOnce(j, rs[..n]);
      OneJudged(j, rs[n]);
      RepliesConcat(Refusals(j, rs[..n]), Refusal(j, rs[n]));
      Added(rs[..n], [rs[n]], rs);
      Added(Passing(j, rs[..n]), Kept(j, rs[n]), Passing(j, rs));
    }
  }

  /** Every request taken by the loop has been answered once or still waits, once. */
  ghost predicate Accounted(s: State) {
    multiset(s.accepted) == Replies(s.sent) + multiset(s.requests) + multiset(s.pending)
  }

  lemma FillAllAccounts(s: State, answer: Answer)
    requires Accounted(s)
    ensures Accounted(FillAll(s, answer))
  {
    RepliesConcat(s.sent, Answers(s.pending, answer));
    RepliesConcat(s.sent + Answers(s.pending, answer), Answers(s.requests, answer));
    RepliesOfAnswers(s.pending, answer);
    RepliesOfAnswers(s.requests, answer);
  }

  lemma EmitAccounts(s: State)
    requires Accounted(s)
    ensures Accounted(Emit(s))
  {
    if s.leases == [] {
      FillAllAccounts(s, NoLease);
    } else if s.data.Some? && s.manifests != [] {
      var published := Publications(s.leases, Last(s.manifests), s.data.value);
      RepliesConcat(s.sent, published);
      RepliesConcat(s.sent + published, Answers(s.pending, Accept));
      RepliesOfPublications(s.leases, Last(s.manifests), s.data.value);
      RepliesOfAnswers(s.pending, Accept);
    }
  }

  lemma ValidateAccounts(c: Config, s: State, free: Request -> bool)
    requires Accounted(s)
    ensures Accounted(ValidateIfFetched(c, s, free))
  {
    if s.data.Some? {
      var j := Judge(c, Expected(s.versions, s.data.value), s.data.value.groups, free);
      JudgedOnce(j, s.requests);
      RepliesConcat(s.sent, Refusals(j, s.requests));
    }
  }

  lemma AccountedKept(s: State, t: State)
    requires Accounted(s)
    requires t.accepted == s.accepted && t.sent == s.sent && t.requests == s.requests && t.pending == s.pending
    ensures Accounted(t)
  {
  }

  lemma RequestAccounted(s: State, request: Request)
    requires Accounted(s)
    ensures Accounted(s.(requests := s.requests + [request], accepted := s.accepted + [request]))
  {
    hide Replies;
  }

  lemma ValidateThenEmitAccounts(c: Config, s: State, free: Request -> bool)
    requires Accounted(s)
    ensures var t := Emit(ValidateIfFetched(c, s, free));
            Accounted(MaybeScheduleStop(t)) && Accounted(MaybeFetch(MaybeScheduleStop(t)))
  {
    hide Accounted, Emit, ValidateIfFetched;
    ValidateAccounts(c, s, free);
    EmitAccounts(ValidateIfFetched(c, s, free));
    var t := Emit(ValidateIfFetched(c, s, free));
    AccountedKept(t, MaybeScheduleStop(t));
    AccountedKept(t, MaybeFetch(MaybeScheduleStop(t)));
  }

  lemma StepAccounts(c: Config, s: State, a: Action)
    requires Accounted(s)
    ensures Accounted(Step(c, s, a))
  {
    hide Accounted, Emit, ValidateIfFetched, FillAll, Removing;
    match a
    case Shutdown =>
      FillAllAccounts(s, NotRunning);
      AccountedKept(FillAll(s, NotRunning), Step(c, s, a));
    case StopTimerFired =>
      FillAllAccounts(s, NotRunning);
      AccountedKept(FillAll(s, NotRunning), Step(c, s, a));
    case LeaseWon(lease) =>
      var t := s.(leases := s.leases + [lease]);
      AccountedKept(s, t);
      EmitAccounts(t);
      AccountedKept(Emit(t), Step(c, s, a));
    case LeaseRemoved(_) => AccountedKept(s, Step(c, s, a));
    case ManifestReceived(request, free) =>
      RequestAccounted(s, request);
      ValidateThenEmitAccounts(c, s.(requests := s.requests + [request], accepted := s.accepted + [request]), free);
    case VersionUpdated(_) => AccountedKept(s, Step(c, s, a));
    case Fetched(data, free) =>
      var t := s.(fetching := false);
      AccountedKept(s, t);
      AccountedKept(s, t.(data := data));
      FillAllAccounts(t, FetchFailed);
      ValidateThenEmitAccounts(c, t.(data := data), free);
  }

  // ---------------------------------------------------------------- what waits at the loop head

  /** No validated request waits; an unvalidated one waits only while the deployment is being fetched; the stop timer is never set. */
  predicate AtHead(s: State) {
    && (s.stage == Looping ==> s.pending == [] && (s.requests != [] ==> s.data.None? && s.fetching) && !s.stopTimer)
    && (s.stage == Stopped ==> s.pending == [] && s.requests == [])
  }

  lemma EmitClears(c: Config, s: State, free: Request -> bool)
    requires s.pending == []
    ensures var t := Emit(ValidateIfFetched(c, s, free));
            && t.pending == [] && (t.requests != [] ==> s.data.None? && s.leases != [])
            && t.data == s.data && t.fetching == s.fetching && t.stopTimer == s.stopTimer && t.stage == s.stage
  {
  }

  lemma StepKeepsHead(c: Config, s: State, a: Action)
    requires AtHead(s) && Enabled(s, a)
    ensures AtHead(Step(c, s, a))
  {
    hide Verdict, Passing, Refusals, Removing;
    match a
    case ManifestReceived(request, free) =>
      EmitClears(c, s.(requests := s.requests + [request], accepted := s.accepted + [request]), free);
    case Fetched(data, free) => EmitClears(c, s.(fetching := false, data := data), free);
    case _ =>
  }

  /**
   * In every run: at each loop head nothing validated waits and the rest
   * waits for a fetch in flight; the accepted requests are those answered
   * and those waiting; and once the run has ended each has been answered
   * exactly once.
   */
  lemma {:induction false} RunAnswersOnce(c: Config, states: seq<State>, actions: seq<Action>, i: nat)
    requires IsRun(c, states, actions) && i < |states|
    ensures AtHead(states[i]) && Accounted(states[i])
    ensures states[i].stage == Stopped ==> Replies(states[i].sent) == multiset(states[i].accepted)
  {
    if i > 0 {
      RunAnswersOnce(c, states, actions, i - 1);
      StepKeepsHead(c, states[i - 1], actions[i - 1]);
      StepAccounts(c, states[i - 1], actions[i - 1]);
    }
  }

  /** The stop timer is only restarted when it is already set, so it never ends a run. */
  lemma StopTimerNeverFires(c: Config, states: seq<State>, actions: seq<Action>, i: nat)
    requires IsRun(c, states, actions) && i < |actions|
    ensures actions[i] != StopTimerFired
  {
    RunAnswersOnce(c, states, actions, i);
    assert Enabled(states[i], actions[i]);
  }

  // ---------------------------------------------------------------- what an acceptance means

  lemma {:induction false} PassingAccepted(j: Judge, rs: seq<Request>)
    ensures forall i :: 0 <= i < |Passing(j, rs)| ==> Verdict(j, Passing(j, rs)[i]) == Accept
  {
    hide Verdict;
    if rs != [] {
      PassingAccepted(j, rs[..|rs| - 1]);
    }
  }

  lemma {:induction false} RefusalsRefuse(j: Judge, rs: seq<Request>)
    ensures forall i :: 0 <= i < |Refusals(j, rs)| ==> Refusals(j, rs)[i].Answered? && Refusals(j, rs)[i].answer != Accept
  {
    hide Verdict;
    if rs != [] {
      RefusalsRefuse(j, rs[..|rs| - 1]);
    }
  }

  /** The manifest has the deployment's current version and fits its groups. */
  ghost predicate Current(c: Config, t: State, content: Content) {
    && t.data.Some?
    && c.hash(content) == Some(Expected(t.versions, t.data.value))
    && c.wellFormed(content)
    && Accepted(content, t.data.value.groups)
  }

  ghost predicate SentTo(t: State, lease: Lease, from: nat, to: nat)
    requires from <= to <= |t.sent|
  {
    && t.data.Some? && t.manifests != []
    && exists i :: from <= i < to && t.sent[i] == Published(lease, Last(t.manifests), t.data.value)
  }

  /** Since position `from`, the newest validated manifest went out for every held lease. */
  ghost predicate PublishedToAll(t: State, from: nat, to: nat)
    requires from <= to <= |t.sent|
  {
    t.leases != [] && forall l :: 0 <= l < |t.leases| ==> SentTo(t, t.leases[l], from, to)
  }

  /** An acceptance sent at `k` is of a current manifest and comes after the publications, of a manifest of the same version. */
  ghost predicate Justified(c: Config, t: State, from: nat, k: nat)
    requires from <= k < |t.sent|
  {
    t.sent[k].Answered? && t.sent[k].answer == Accept ==>
      && PublishedToAll(t, from, k) && t.manifests != []
      && Current(c, t, t.sent[k].request.content)
      && Current(c, t, Last(t.manifests))
  }

  ghost predicate JustifiedSince(c: Config, s: State, t: State) {
    && |s.sent| <= |t.sent| && t.sent[..|s.sent|] == s.sent
    && forall k :: |s.sent| <= k < |t.sent| ==> Justified(c, t, |s.sent|, k)
  }

  lemma AcceptedIsCurrent(c: Config, t: State, j: Judge, r: Request)
    requires t.data.Some? && j == Judge(c, Expected(t.versions, t.data.value), t.data.value.groups, j.free)
    requires Verdict(j, r) == Accept
    ensures Current(c, t, r.content)
  {
  }

  lemma PublicationsReach(t: State, before: seq<Emission>, published: seq<Emission>, rest: seq<Emission>, from: nat, to: nat)
    requires t.data.Some? && t.leases != [] && t.manifests != []
    requires published == Publications(t.leases, Last(t.manifests), t.data.value)
    requires t.sent == before + published + rest
    requires from <= |before| <= |before| + |published| <= to <= |t.sent|
    ensures PublishedToAll(t, from, to)
  {
    forall l | 0 <= l < |t.leases| ensures SentTo(t, t.leases[l], from, to) {
      assert t.sent[|before| + l] == published[l] == Published(t.leases[l], Last(t.manifests), t.data.value);
    }
  }

  /** Publishing justifies the acceptances it sends if the waiting requests and the manifest are current. */
  lemma EmitJustified(c: Config, s: State)
    requires s.data.Some? && s.pending != [] ==> s.manifests != [] && Current(c, s, Last(s.manifests))
    requires forall i :: 0 <= i < |s.pending| ==> Current(c, s, s.pending[i].content)
    ensures JustifiedSince(c, s, Emit(s))
  {
    hide PublishedToAll, Accepted;
    var t := Emit(s);
    if s.leases == [] {
      ErrorsJustified(c, s, NoLease);
    } else if s.data.None? || s.manifests == [] {
      assert t.sent == s.sent;
    } else {
      var published := Publications(s.leases, Last(s.manifests), s.data.value);
      forall k | |s.sent| <= k < |t.sent| ensures Justified(c, t, |s.sent|, k) {
        if |s.sent| + |published| <= k {
          PublicationsReach(t, s.sent, published, Answers(s.pending, Accept), |s.sent|, k);
          assert t.sent[k].request == s.pending[k - |s.sent| - |published|];
        } else {
          assert t.sent[k] == published[k - |s.sent|];
        }
      }
    }
  }

  /** Validation sends refusals only, and what it leaves waiting is current. */
  lemma ValidateJustified(c: Config, s: State, free: Request -> bool)
    requires s.pending == []
    ensures var v := ValidateIfFetched(c, s, free);
            && JustifiedSince(c, s, v)
            && (forall k :: |s.sent| <= k < |v.sent| ==> v.sent[k].Answered? && v.sent[k].answer != Accept)
            && (v.data.Some? && v.pending != [] ==> v.manifests != [] && Current(c, v, Last(v.manifests)))
            && forall i :: 0 <= i < |v.pending| ==> Current(c, v, v.pending[i].content)
  {
    hide Verdict, Passing, Refusals, PublishedToAll, Current;
    if s.data.Some? && s.requests != [] {
      var v := ValidateIfFetched(c, s, free);
      var j := Judge(c, Expected(s.versions, s.data.value), s.data.value.groups, free);
      PassingAccepted(j, s.requests);
      RefusalsRefuse(j, s.requests);
      assert v.pending == Passing(j, s.requests);
      forall i | 0 <= i < |v.pending| ensures Current(c, v, v.pending[i].content) {
        AcceptedIsCurrent(c, v, j, v.pending[i]);
      }
      if v.pending != [] {
        assert Last(v.manifests) == v.pending[0].content;
      }
    }
  }

  /** Two moves in a row, of which the first accepts nothing. */
  lemma JustifiedThrough(c: Config, s: State, v: State, t: State)
    requires JustifiedSince(c, s, v) && JustifiedSince(c, v, t)
    requires forall k :: |s.sent| <= k < |v.sent| ==> v.sent[k].Answered? && v.sent[k].answer != Accept
    ensures JustifiedSince(c, s, t)
  {
    hide Current;
    forall k | |s.sent| <= k < |t.sent| ensures Justified(c, t, |s.sent|, k) {
      if k < |v.sent| {
        assert t.sent[k] == t.sent[..|v.sent|][k];
      } else {
        assert Justified(c, t, |v.sent|, k);
      }
    }
  }

  lemma ValidateThenEmitJustified(c: Config, s: State, free: Request -> bool)
    requires s.pending == []
    ensures JustifiedSince(c, s, Emit(ValidateIfFetched(c, s, free)))
  {
    hide JustifiedSince, Emit, ValidateIfFetched, Current;
    var v := ValidateIfFetched(c, s, free);
    ValidateJustified(c, s, free);
    EmitJustified(c, v);
    JustifiedThrough(c, s, v, Emit(v));
  }

  lemma JustifiedKept(c: Config, s: State, t: State, u: State)
    requires JustifiedSince(c, s, t)
    requires u.sent == t.sent && u.leases == t.leases && u.manifests == t.manifests && u.data == t.data && u.versions == t.versions
    ensures JustifiedSince(c, s, u)
  {
    hide Accepted;
    forall k | |s.sent| <= k < |u.sent| ensures Justified(c, u, |s.sent|, k) {
      assert Justified(c, t, |s.sent|, k);
    }
  }

  /** Finishing touches of a step, which send nothing. */
  lemma TidyJustified(c: Config, s: State, t: State)
    requires JustifiedSince(c, s, t)
    ensures JustifiedSince(c, s, MaybeScheduleStop(t))
    ensures JustifiedSince(c, s, MaybeFetch(MaybeScheduleStop(t)))
  {
    hide JustifiedSince;
    JustifiedKept(c, s, t, MaybeScheduleStop(t));
    JustifiedKept(c, s, t, MaybeFetch(MaybeScheduleStop(t)));
  }

  lemma ErrorsJustified(c: Config, s: State, answer: Answer)
    requires answer != Accept
    ensures JustifiedSince(c, s, FillAll(s, answer))
    ensures JustifiedSince(c, s, FillAll(s, answer).(stage := Stopped))
  {
    hide PublishedToAll, Current;
  }

  lemma StepJustified(c: Config, s: State, a: Action)
    requires AtHead(s) && Enabled(s, a)
    ensures JustifiedSince(c, s, Step(c, s, a))
  {
    hide Justified, FillAll, Emit, ValidateIfFetched, Removing, MaybeScheduleStop, MaybeFetch;
    match a
    case Shutdown => ErrorsJustified(c, s, NotRunning);
    case StopTimerFired => ErrorsJustified(c, s, NotRunning);
    case LeaseWon(lease) =>
      var t := s.(leases := s.leases + [lease]);
      EmitJustified(c, t);
      TidyJustified(c, t, Emit(t));
    case LeaseRemoved(id) => RemovalSendsNothing(s, id);
    case ManifestReceived(request, free) =>
      var t := s.(requests := s.requests + [request], accepted := s.accepted + [request]);
      ValidateThenEmitJustified(c, t, free);
      TidyJustified(c, t, Emit(ValidateIfFetched(c, t, free)));
    case VersionUpdated(_) =>
    case Fetched(data, free) =>
      var t := s.(fetching := false);
      ErrorsJustified(c, t, FetchFailed);
      ValidateThenEmitJustified(c, t.(data := data), free);
      TidyJustified(c, t.(data := data), Emit(ValidateIfFetched(c, t.(data := data), free)));
  }

  lemma RemovalSendsNothing(s: State, id: nat)
    ensures AfterRemoval(s, id).sent == s.sent
  {
  }

  /** In every step of every run, a nil answer comes after the newest validated manifest went to the bus for every held lease. */
  lemma RunJustifies(c: Config, states: seq<State>, actions: seq<Action>, i: nat)
    requires IsRun(c, states, actions) && i < |actions|
    ensures JustifiedSince(c, states[i], states[i + 1])
  {
    RunAnswersOnce(c, states, actions, i);
    StepJustified(c, states[i], actions[i]);
  }

  /** What a request is answered, exactly, once the deployment is known: the verdict on it, unless it is valid and no lease is held. */
  lemma AnsweredAtOnce(c: Config, s: State, request: Request, free: Request -> bool)
    requires AtHead(s) && s.stage == Looping && s.data.Some?
    ensures var t := Step(c, s, ManifestReceived(request, free));
            var verdict := Verdict(Judge(c, Expected(s.versions, s.data.value), s.data.value.groups, free), request);
            && t.requests == [] && t.pending == []
            && t.manifests == (if verdict == Accept then s.manifests + [request.content] else s.manifests)
            && exists k :: |s.sent| <= k < |t.sent|
                  && t.sent[k] == Answered(request, if verdict == Accept && s.leases == [] then NoLease else verdict)
  {
    hide Verdict, FillAll, Emit, AfterRemoval, AfterFetch;
    var t := s.(requests := [request], accepted := s.accepted + [request]);
    assert s.requests + [request] == [request];
    var j := Judge(c, Expected(s.versions, s.data.value), s.data.value.groups, free);
    JudgesOne(j, request);
    var v := ValidateIfFetched(c, t, free);
    assert Emit(v).sent == Step(c, s, ManifestReceived(request, free)).sent;
    EmitSends(v);
    if Verdict(j, request) != Accept {
      assert v.sent[|s.sent|] == Answered(request, Verdict(j, request));
    } else {
      assert v.pending == [request];
    }
  }

  lemma {:induction false} JudgesOne(j: Judge, r: Request)
    ensures Passing(j, [r]) == Kept(j, r) && Refusals(j, [r]) == Refusal(j, r)
  {
    hide Kept, Refusal;
    assert [r][..0] == [];
    assert Passing(j, []) == [] && Refusals(j, []) == [];
    assert [r][|[r]| - 1] == r;
    assert Passing(j, [r]) == Passing(j, [r][..0]) + Kept(j, r);
    assert Refusals(j, [r]) == Refusals(j, [r][..0]) + Refusal(j, r);
  }

  /** Publishing only adds to what was sent; a single waiting request is answered last. */
  lemma EmitSends(s: State)
    requires s.requests == [] && s.data.Some? && (s.pending != [] ==> s.manifests != [])
    ensures var t := Emit(s);
            && t.requests == [] && t.pending == [] && t.manifests == s.manifests
            && |s.sent| <= |t.sent| && (forall k :: 0 <= k < |s.sent| ==> t.sent[k] == s.sent[k])
            && (|s.pending| == 1 ==>
                  && |s.sent| < |t.sent|
                  && t.sent[|t.sent| - 1] == Answered(s.pending[0], if s.leases == [] then NoLease else Accept))
  {
  }

  // ---------------------------------------------------------------- removing a lease

  lemma {:induction false} NothingToRemove(leases: seq<Lease>, length: nat, i: nat, id: nat)
    requires length <= |leases| && i <= |leases|
    requires forall k :: i <= k < |leases| ==> leases[k].id != id
    ensures Removing(leases, length, i, id) == Some(leases[..length])
    decreases |leases| - i
  {
    if i < |leases| {
      NothingToRemove(leases, length, i + 1, id);
    }
  }

  /** A lease held once is removed, and nothing else. */
  lemma {:induction false} RemovesTheOne(leases: seq<Lease>, i: nat, at: nat, id: nat)
    requires i <= at < |leases| && leases[at].id == id
    requires forall k :: i <= k < |leases| && k != at ==> leases[k].id != id
    ensures Removing(leases, |leases|, i, id) == Some(leases[..at] + leases[at + 1..])
    decreases at - i
  {
    var n := |leases|;
    if i < at {
      RemovesTheOne(leases, i + 1, at, id);
    } else {
      var shifted := Shifted(leases, n, at);
      assert shifted[..n - 1] == leases[..at] + leases[at + 1..];
      forall k | at < k < n ensures shifted[k].id != id {
        assert shifted[k] == leases[if k < n - 1 then k + 1 else n - 1];
      }
      NothingToRemove(shifted, n - 1, at + 1, id);
    }
  }

  lemma {:induction false} StaleTailPanics(leases: seq<Lease>, length: nat, i: nat, id: nat)
    requires i < |leases| && length < |leases| && leases[|leases| - 1].id == id
    ensures Removing(leases, length, i, id).None?
    decreases |leases| - i
  {
    if leases[i].id != id {
      StaleTailPanics(leases, length, i + 1, id);
    } else if i < length {
      StaleTailPanics(Shifted(leases, length, i), length - 1, i + 1, id);
    }
  }

  lemma {:induction false} OtherTailNeverPanics(leases: seq<Lease>, length: nat, i: nat, id: nat)
    requires 0 < length <= |leases| && i <= |leases| && leases[|leases| - 1].id != id
    requires forall k :: length - 1 <= k < |leases| ==> leases[k] == leases[|leases| - 1]
    ensures Removing(leases, length, i, id).Some?
    decreases |leases| - i
  {
    if i == |leases| {
    } else if leases[i].id != id {
      OtherTailNeverPanics(leases, length, i + 1, id);
    } else {
      var shifted := Shifted(leases, length, i);
      assert shifted[length - 2] == leases[length - 1];
      assert forall k :: length - 1 <= k < |leases| ==> shifted[k] == leases[k];
      OtherTailNeverPanics(shifted, length - 1, i + 1, id);
    }
  }

  lemma {:induction false} LastMatchPanics(leases: seq<Lease>, i: nat, id: nat)
    requires i < |leases| && leases[|leases| - 1].id == id
    ensures Removing(leases, |leases|, i, id).None? <==> exists k :: i <= k < |leases| - 1 && leases[k].id == id
    decreases |leases| - i
  {
    var n := |leases|;
    if i == n - 1 {
    } else if leases[i].id == id {
      StaleTailPanics(Shifted(leases, n, i), n - 1, i + 1, id);
    } else {
      LastMatchPanics(leases, i + 1, id);
    }
  }

  /** Removing a lease panics exactly if the last lease held has that id and so has another. */
  lemma {:induction false} RemovalPanicsIff(leases: seq<Lease>, id: nat)
    ensures Removing(leases, |leases|, 0, id).None? <==>
            && leases != [] && leases[|leases| - 1].id == id
            && exists k :: 0 <= k < |leases| - 1 && leases[k].id == id
  {
    if leases != [] {
      if leases[|leases| - 1].id == id {
        LastMatchPanics(leases, 0, id);
      } else {
        OtherTailNeverPanics(leases, |leases|, 0, id);
      }
    }
  }

  /** What the loop leaves: it passes over the lease that moves into a freed place. */
  function Left(leases: seq<Lease>, id: nat): seq<Lease> {
    if leases == [] then []
    else if leases[0].id != id then [leases[0]] + Left(leases[1..], id)
    else if |leases| == 1 then []
    else [leases[1]] + Left(leases[2..], id)
  }

  lemma ShiftedParts(leases: seq<Lease>, length: nat, i: nat)
    requires i + 1 < length <= |leases|
    ensures var shifted := Shifted(leases, length, i);
            && shifted[length - 2] == leases[length - 1]
            && (forall k :: length - 1 <= k < |leases| ==> shifted[k] == leases[k])
            && shifted[..i + 1] == leases[..i] + [leases[i + 1]]
            && shifted[i + 1..length - 1] == leases[i + 2..length]
  {
  }

  lemma Associates(a: seq<Lease>, b: seq<Lease>, c: seq<Lease>)
    ensures (a + b) + c == a + (b + c)
  {
  }

  /** The tail that the range still sees behind the current length is made of copies of a last lease with another id. */
  predicate StaleTail(leases: seq<Lease>, length: nat, id: nat) {
    && 0 < length <= |leases| && leases[|leases| - 1].id != id
    && forall k :: length - 1 <= k < |leases| ==> leases[k] == leases[|leases| - 1]
  }

  lemma RemoveHere(leases: seq<Lease>, length: nat, i: nat, id: nat)
    requires i < length && StaleTail(leases, length, id) && leases[i].id == id
    ensures i + 1 < length && StaleTail(Shifted(leases, length, i), length - 1, id)
    ensures Removing(leases, length, i, id) == Removing(Shifted(leases, length, i), length - 1, i + 1, id)
    ensures Left(leases[i..length], id) == [leases[i + 1]] + Left(leases[i + 2..length], id)
  {
    ShiftedParts(leases, length, i);
    assert leases[i..length][2..] == leases[i + 2..length];
  }

  lemma PassOver(leases: seq<Lease>, length: nat, i: nat, id: nat)
    requires i < length && StaleTail(leases, length, id) && leases[i].id != id
    ensures Removing(leases, length, i, id) == Removing(leases, length, i + 1, id)
    ensures Left(leases[i..length], id) == [leases[i]] + Left(leases[i + 1..length], id)
  {
    assert leases[i..length][1..] == leases[i + 1..length];
  }

  lemma {:induction false} RemovingLeaves(leases: seq<Lease>, length: nat, i: nat, id: nat)
    requires i <= length && StaleTail(leases, length, id)
    ensures Removing(leases, length, i, id) == Some(leases[..i] + Left(leases[i..length], id))
    decreases |leases| - i
  {
    hide Removing, Shifted, Left;
    if i == length {
      NothingToRemove(leases, length, i, id);
      NothingLeft(id);
      assert leases[i..length] == [] && leases[..i] + [] == leases[..length];
    } else if leases[i].id != id {
      PassOver(leases, length, i, id);
      RemovingLeaves(leases, length, i + 1, id);
      assert leases[..i + 1] == leases[..i] + [leases[i]];
      Associates(leases[..i], [leases[i]], Left(leases[i + 1..length], id));
    } else {
      RemoveHere(leases, length, i, id);
      ShiftedParts(leases, length, i);
      RemovingLeaves(Shifted(leases, length, i), length - 1, i + 1, id);
      Associates(leases[..i], [leases[i + 1]], Left(leases[i + 2..length], id));
    }
  }

  lemma {:induction false} NothingLeft(id: nat)
    ensures Left([], id) == []
  {
  }

  lemma {:induction false} OnlyLastLeaves(leases: seq<Lease>, id: nat)
    requires leases != [] && leases[|leases| - 1].id == id
    requires forall k :: 0 <= k < |leases| - 1 ==> leases[k].id != id
    ensures Left(leases, id) == leases[..|leases| - 1]
  {
    if |leases| > 1 {
      OnlyLastLeaves(leases[1..], id);
      assert leases[..|leases| - 1] == [leases[0]] + leases[1..][..|leases| - 2];
    }
  }

  /** Without a panic, this is exactly what a removal leaves, for every list of leases. */
  lemma {:induction false} RemovalLeaves(leases: seq<Lease>, id: nat)
    requires Removing(leases, |leases|, 0, id).Some?
    ensures Removing(leases, |leases|, 0, id).value == Left(leases, id)
  {
    var n := |leases|;
    RemovalPanicsIff(leases, id);
    if n > 0 {
      if leases[n - 1].id != id {
        RemovingLeaves(leases, n, 0, id);
        assert leases[0..n] == leases && leases[..0] + Left(leases, id) == Left(leases, id);
      } else {
        RemovesTheOne(leases, 0, n - 1, id);
        OnlyLastLeaves(leases, id);
        assert leases[..n - 1] + leases[n..] == leases[..n - 1];
      }
    }
  }

  /** The leases with another id, in order. */
  function Others(leases: seq<Lease>, id: nat): seq<Lease> {
    if leases == [] then []
    else (if leases[0].id != id then [leases[0]] else []) + Others(leases[1..], id)
  }

  predicate Held(leases: seq<Lease>, id: nat) {
    exists k :: 0 <= k < |leases| && leases[k].id == id
  }

  predicate Neighbours(leases: seq<Lease>, id: nat) {
    exists k :: 0 <= k < |leases| - 1 && leases[k].id == id && leases[k + 1].id == id
  }

  lemma {:induction false} LeftKeepsOthers(leases: seq<Lease>, id: nat)
    ensures Others(Left(leases, id), id) == Others(leases, id)
  {
    if leases == [] {
    } else if leases[0].id != id {
      LeftKeepsOthers(leases[1..], id);
      assert Left(leases, id)[1..] == Left(leases[1..], id);
    } else if |leases| == 1 {
      assert leases[1..] == [];
    } else {
      LeftKeepsOthers(leases[2..], id);
      assert Left(leases, id)[1..] == Left(leases[2..], id);
      assert leases[1..][1..] == leases[2..];
    }
  }

  lemma HeldCons(lease: Lease, leases: seq<Lease>, id: nat)
    ensures Held([lease] + leases, id) <==> lease.id == id || Held(leases, id)
  {
    var all := [lease] + leases;
    assert all[0] == lease;
    if Held(leases, id) {
      var k :| 0 <= k < |leases| && leases[k].id == id;
      assert all[k + 1] == leases[k];
    }
  }

  lemma NeighboursCons(lease: Lease, leases: seq<Lease>, id: nat)
    ensures Neighbours([lease] + leases, id) <==>
            (leases != [] && lease.id == id && leases[0].id == id) || Neighbours(leases, id)
  {
    var all := [lease] + leases;
    if leases != [] && lease.id == id && leases[0].id == id {
      assert all[0].id == id && all[0 + 1].id == id;
    }
    if Neighbours(leases, id) {
      var k :| 0 <= k < |leases| - 1 && leases[k].id == id && leases[k + 1].id == id;
      assert all[k + 1].id == id && all[k + 1 + 1].id == id;
    }
    if Neighbours(all, id) {
      var k :| 0 <= k < |all| - 1 && all[k].id == id && all[k + 1].id == id;
      assert k > 0 ==> leases[k - 1].id == id && leases[k - 1 + 1].id == id;
    }
  }

  lemma {:induction false} LeftHolds(leases: seq<Lease>, id: nat)
    ensures Held(Left(leases, id), id) <==> Neighbours(leases, id)
  {
    if leases != [] {
      assert leases == [leases[0]] + leases[1..];
      NeighboursCons(leases[0], leases[1..], id);
      if leases[0].id != id {
        LeftHolds(leases[1..], id);
        HeldCons(leases[0], Left(leases[1..], id), id);
      } else if |leases| > 1 {
        assert leases[1..] == [leases[1]] + leases[2..];
        NeighboursCons(leases[1], leases[2..], id);
        LeftHolds(leases[2..], id);
        HeldCons(leases[1], Left(leases[2..], id), id);
      }
    }
  }

  /**
   * A removal that does not panic keeps all other leases in order, and the
   * lease is no longer held if and only if no two neighbouring leases had
   * its id.
   */
  lemma {:induction false} RemovalExact(leases: seq<Lease>, id: nat)
    requires Removing(leases, |leases|, 0, id).Some?
    ensures var left := Removing(leases, |leases|, 0, id).value;
            && Others(left, id) == Others(leases, id)
            && (!Held(left, id) <==> !Neighbours(leases, id))
  {
    RemovalLeaves(leases, id);
    LeftKeepsOthers(leases, id);
    LeftHolds(leases, id);
  }

  /** The smallest removal that goes wrong without a panic. */
  lemma SecondSurvives(a: Lease, twin: Lease, b: Lease)
    requires a.id == twin.id != b.id
    ensures var leases := [a, twin, b];
            Removing(leases, |leases|, 0, a.id) == Some([twin, b])
  {
    var leases, id := [a, twin, b], a.id;
    assert leases[2..] == [b] && [b][1..] == [] && Left([], id) == [];
    assert Left([b], id) == [b];
    assert Left(leases, id) == [twin] + [b] == [twin, b];
    RemovalPanicsIff(leases, a.id);
    RemovalLeaves(leases, a.id);
  }

  // ---------------------------------------------------------------- the loop's own fields

  lemma AnswersNext(rs: seq<Request>, i: nat, answer: Answer)
    requires i < |rs|
    ensures Answers(rs[..i + 1], answer) == Answers(rs[..i], answer) + [Answered(rs[i], answer)]
  {
  }

  lemma PublicationsNext(leases: seq<Lease>, i: nat, content: Content, data: Deployment)
    requires i < |leases|
    ensures Publications(leases[..i + 1], content, data) == Publications(leases[..i], content, data) + [Published(leases[i], content, data)]
  {
  }

  lemma {:induction false} NothingJudged(j: Judge)
    ensures Passing(j, []) == [] && Refusals(j, []) == []
  {
  }

  lemma {:induction false} JudgedNext(j: Judge, rs: seq<Request>, i: nat)
    requires i < |rs|
    ensures Passing(j, rs[..i + 1]) == Passing(j, rs[..i]) + Kept(j, rs[i])
    ensures Refusals(j, rs[..i + 1]) == Refusals(j, rs[..i]) + Refusal(j, rs[i])
  {
    assert rs[..i + 1][..i] == rs[..i];
  }

  class Manager {
    const config: Config
    var stage: Stage
    var requests: seq<Request>
    var pendingRequests: seq<Request>
    var leases: seq<Lease>
    var manifests: seq<Content>
    var versions: seq<Version>
    var data: Option<Deployment>
    var fetching: bool
    var stopTimer: bool
    ghost var accepted: seq<Request>
    ghost var sent: seq<Emission>

    ghost function View(): State
      reads this
    {
      State(stage, requests, pendingRequests, leases, manifests, versions, data, fetching, stopTimer, accepted, sent)
    }

    constructor (config: Config)
      ensures View() == Initial() && this.config == config
    {
      this.config := config;
      stage, requests, pendingRequests, leases, manifests, versions := Looping, [], [], [], [], [];
      data, fetching, stopTimer, accepted, sent := None, false, false, [], [];
    }

    method FillAllRequests(answer: Answer)
      modifies this`requests, this`pendingRequests, this`sent
      ensures View() == FillAll(old(View()), answer)
    {
      for i := 0 to |pendingRequests|
        invariant pendingRequests == old(pendingRequests) && requests == old(requests)
        invariant sent == old(sent) + Answers(pendingRequests[..i], answer)
      {
        AnswersNext(pendingRequests, i, answer);
        sent := sent + [Answered(pendingRequests[i], answer)];
      }
      assert pendingRequests[..|pendingRequests|] == pendingRequests;
      pendingRequests := [];
      ghost var before := sent;
      for i := 0 to |requests|
        invariant pendingRequests == [] && requests == old(requests)
        invariant sent == before + Answers(requests[..i], answer)
      {
        AnswersNext(requests, i, answer);
        sent := sent + [Answered(requests[i], answer)];
      }
      assert requests[..|requests|] == requests;
      requests := [];
    }

    method EmitReceivedEvents()
      modifies this`requests, this`pendingRequests, this`sent
      ensures View() == Emit(old(View()))
    {
      if leases == [] {
        FillAllRequests(NoLease);
        return;
      }
      if data.None? || manifests == [] {
        return;
      }
      var content := manifests[|manifests| - 1];
      for i := 0 to |leases|
        invariant pendingRequests == old(pendingRequests) && requests == old(requests)
        invariant sent == old(sent) + Publications(leases[..i], content, data.value)
      {
        PublicationsNext(leases, i, content, data.value);
        sent := sent + [Published(leases[i], content, data.value)];
      }
      assert leases[..|leases|] == leases;
      ghost var before := sent;
      for i := 0 to |pendingRequests|
        invariant pendingRequests == old(pendingRequests) && requests == old(requests)
        invariant sent == before + Answers(pendingRequests[..i], Accept)
      {
        AnswersNext(pendingRequests, i, Accept);
        sent := sent + [Answered(pendingRequests[i], Accept)];
      }
      assert pendingRequests[..|pendingRequests|] == pendingRequests;
      pendingRequests := [];
    }

    method ValidateRequest(request: Request, free: Request -> bool) returns (answer: Answer)
      requires data.Some?
      ensures answer == Verdict(Judge(config, Expected(versions, data.value), data.value.groups, free), request)
    {
      var hash := config.hash(request.content);
      if hash.None? {
        return Unhashable;
      }
      var expected := if |versions| != 0 then versions[|versions| - 1] else data.value.version;
      if hash.value != expected {
        return VersionMismatch;
      }
      if !config.wellFormed(request.content) {
        return Malformed;
      }
      var fits := ValidateGroups(request.content, data.value.groups);
      if fits.Failure? {
        return DeploymentMismatch;
      }
      return if free(request) then Accept else HostnamesRefused;
    }

    method ValidateRequests(free: Request -> bool)
      modifies this`requests, this`pendingRequests, this`sent, this`manifests
      ensures View() == ValidateIfFetched(config, old(View()), free)
    {
      hide Verdict, Passing, Refusals;
      if data.None? || requests == [] {
        return;
      }
      ghost var j := Judge(config, Expected(versions, data.value), data.value.groups, free);
      NothingJudged(j);
      var valid: seq<Request> := [];
      for i := 0 to |requests|
        invariant requests == old(requests) && manifests == old(manifests)
        invariant valid == Passing(j, requests[..i]) && pendingRequests == old(pendingRequests) + valid
        invariant sent == old(sent) + Refusals(j, requests[..i])
      {
        JudgedNext(j, requests, i);
        var answer := ValidateRequest(requests[i], free);
        if answer != Accept {
          sent := sent + [Answered(requests[i], answer)];
        } else {
          valid := valid + [requests[i]];
          pendingRequests := pendingRequests + [requests[i]];
        }
      }
      assert requests[..|requests|] == requests;
      requests := [];
      if |valid| > 0 {
        manifests := manifests + [valid[0].content];
      }
    }

    method ScheduleStop()
      modifies this`stopTimer
      ensures View() == MaybeScheduleStop(old(View()))
    {
      if |leases| > 0 || |manifests| > 0 {
        stopTimer := false;
        return;
      }
      if stopTimer {
        stopTimer := true;
      }
    }

    method FetchData()
      modifies this`fetching
      ensures View() == MaybeFetch(old(View()))
    {
      if data.None? && !fetching {
        fetching := true;
      }
    }

    method OnLeaseWon(lease: Lease)
      modifies this
      ensures View() == Step(config, old(View()), LeaseWon(lease))
    {
      leases := leases + [lease];
      EmitReceivedEvents();
      ScheduleStop();
      FetchData();
    }

    method OnLeaseRemoved(id: nat)
      modifies this
      ensures View() == Step(config, old(View()), LeaseRemoved(id))
    {
      var backing, length: nat := leases, |leases|;
      for i := 0 to |backing|
        invariant |backing| == |leases| && length <= |backing|
        invariant View() == old(View())
        invariant Removing(backing, length, i, id) == Removing(leases, |leases|, 0, id)
      {
        if backing[i].id == id {
          if length < i + 1 {
            stage := Panicked;
            return;
          }
          backing := Shifted(backing, length, i);
          length := length - 1;
        }
      }
      leases := backing[..length];
      ScheduleStop();
    }

    method OnManifest(request: Request, free: Request -> bool)
      modifies this
      ensures View() == Step(config, old(View()), ManifestReceived(request, free))
    {
      hide Emit, ValidateIfFetched, MaybeScheduleStop, MaybeFetch, AfterFetch, AfterRemoval, FillAll;
      requests := requests + [request];
      accepted := accepted + [request];
      ValidateRequests(free);
      EmitReceivedEvents();
      ScheduleStop();
      FetchData();
    }

    method OnVersion(version: Version)
      modifies this
      ensures View() == Step(config, old(View()), VersionUpdated(version))
    {
      versions := versions + [version];
      if data.Some? {
        data := Some(data.value.(version := version));
      }
    }

    method OnFetched(result: Option<Deployment>, free: Request -> bool)
      modifies this
      ensures View() == Step(config, old(View()), Fetched(result, free))
    {
      hide Emit, ValidateIfFetched, MaybeScheduleStop, AfterManifest, AfterRemoval, FillAll;
      fetching := false;
      if result.None? {
        FillAllRequests(FetchFailed);
        return;
      }
      data := result;
      ValidateRequests(free);
      EmitReceivedEvents();
      ScheduleStop();
    }

    method OnShutdown()
      modifies this
      ensures View() == Step(config, old(View()), Shutdown)
    {
      FillAllRequests(NotRunning);
      stage := Stopped;
    }
  }
}
