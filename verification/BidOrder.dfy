/**
 * The bid pipeline of one order (provider/bidengine/order.go): a select loop
 * over one-shot asynchronous results, and the exit path that undoes what the
 * loop has acquired. Runs interleave the loop with the cluster's and the
 * chain's answers.
 */
module BidOrder {
  import opened Wrappers

  /** A call made in a goroutine: made and unanswered, or answered and unread. `Nothing` is a nil channel. */
  datatype Call = Nothing | Asked | Answered(ok: bool)

  datatype Stage = Looping | Leaving | Finished

  /** Prices are amounts in the order's denomination. */
  datatype Order = Order(maxPrice: int)

  /** The channel variables of `run`; the ones that are only ever waited on are set or nil. */
  datatype Channels = Channels(
    query: bool,
    storedGroup: bool,
    group: bool,
    shouldBid: bool,
    cluster: Call,
    price: bool,
    bid: Call,
    timeout: bool)

  /** What was accepted, found, broadcast, granted, released and closed so far; `landed` if the chain took the run's own bid. */
  datatype History = History(accepted: bool, existing: bool, landed: bool, bids: seq<int>, grants: nat, releases: nat, closes: nat)

  datatype State = State(
    stage: Stage,
    ch: Channels,
    group: Option<Order>,
    reservation: bool,
    won: bool,
    bidPlaced: bool,
    past: History)

  datatype Action =
    | Shutdown
    | BidQueried(found: Option<bool>)
    | LeaseCreated(mine: bool)
    | OrderClosed
    | GroupFetched(order: Option<Order>)
    | BidDecided(decision: Option<bool>)
    | ClusterAnswers(ok: bool)
    | ReservationRead
    | Priced(price: Option<int>)
    | ChainAnswers(ok: bool)
    | BidRead(withTimeout: bool)
    | TimedOut
    | Exit

  function One(b: bool): nat {
    if b then 1 else 0
  }

  function Initial(checkForExistingBid: bool): State {
    State(Looping,
          Channels(checkForExistingBid, checkForExistingBid, !checkForExistingBid, false, Nothing, false, Nothing, false),
          None, false, false, false,
          History(false, false, false, [], 0, 0, 0))
  }

  /** The cluster and the chain answer whenever they like; everything else is a case of the select, or the exit path. */
  predicate Enabled(s: State, a: Action) {
    match a
    case ClusterAnswers(_) => s.ch.cluster == Asked
    case ChainAnswers(_) => s.ch.bid == Asked
    case Exit => s.stage == Leaving && (s.won || s.ch.cluster != Asked)
    case BidQueried(_) => s.stage == Looping && s.ch.query
    case GroupFetched(_) => s.stage == Looping && s.ch.group
    case BidDecided(_) => s.stage == Looping && s.ch.shouldBid
    case ReservationRead => s.stage == Looping && s.ch.cluster.Answered?
    case Priced(_) => s.stage == Looping && s.ch.price && s.group.Some?
    case BidRead(_) => s.stage == Looping && s.ch.bid.Answered?
    case TimedOut => s.stage == Looping && s.ch.timeout
    case Shutdown => s.stage == Looping
    case LeaseCreated(_) => s.stage == Looping
    case OrderClosed => s.stage == Looping
  }

  function AfterQuery(s: State, found: Option<bool>): State {
    if found.None? then s.(ch := s.ch.(query := false), stage := Leaving)
    else
      s.(ch := s.ch.(query := false, group := s.ch.storedGroup, storedGroup := false),
         bidPlaced := s.bidPlaced || found.value,
         past := s.past.(existing := found.value))
  }

  function AfterGroup(s: State, order: Option<Order>): State {
    if order.None? then s.(ch := s.ch.(group := false), stage := Leaving)
    else s.(ch := s.ch.(group := false, shouldBid := true), group := order)
  }

  function AfterDecision(s: State, decision: Option<bool>): State {
    if decision.None? || !decision.value then s.(ch := s.ch.(shouldBid := false), stage := Leaving)
    else s.(ch := s.ch.(shouldBid := false, cluster := Asked), past := s.past.(accepted := true))
  }

  function AfterReservation(s: State): State
    requires s.ch.cluster.Answered?
  {
    if !s.ch.cluster.ok then s.(ch := s.ch.(cluster := Nothing), stage := Leaving)
    else s.(ch := s.ch.(cluster := Nothing, price := s.ch.price || !s.bidPlaced), reservation := true)
  }

  function AfterPrice(s: State, price: Option<int>): State
    requires s.group.Some?
  {
    if price.None? || s.group.value.maxPrice < price.value then s.(ch := s.ch.(price := false), stage := Leaving)
    else s.(ch := s.ch.(price := false, bid := Asked), past := s.past.(bids := s.past.bids + [price.value]))
  }

  function AfterBid(s: State, withTimeout: bool): State
    requires s.ch.bid.Answered?
  {
    if !s.ch.bid.ok then s.(ch := s.ch.(bid := Nothing), stage := Leaving)
    else s.(ch := s.ch.(bid := Nothing, timeout := withTimeout), bidPlaced := true)
  }

  /** Unless the lease was won: take over a reservation granted meanwhile, release it, close a placed bid. */
  function AfterExit(s: State): State {
    if s.won then s.(stage := Finished)
    else
      var held := s.reservation || s.ch.cluster == Answered(true);
      s.(stage := Finished,
         ch := s.ch.(cluster := Nothing),
         reservation := held,
         past := s.past.(releases := s.past.releases + One(held), closes := s.past.closes + One(s.bidPlaced)))
  }

  function AfterGrant(s: State, ok: bool): State {
    s.(ch := s.ch.(cluster := Answered(ok)), past := s.past.(grants := s.past.grants + One(ok)))
  }

  function Step(s: State, a: Action): State
    requires Enabled(s, a)
  {
    match a
    case Shutdown => s.(stage := Leaving)
    case BidQueried(found) => AfterQuery(s, found)
    case LeaseCreated(mine) => s.(stage := Leaving, won := mine)
    case OrderClosed => s.(stage := Leaving)
    case GroupFetched(order) => AfterGroup(s, order)
    case BidDecided(decision) => AfterDecision(s, decision)
    case ClusterAnswers(ok) => AfterGrant(s, ok)
    case ReservationRead => AfterReservation(s)
    case Priced(price) => AfterPrice(s, price)
    case ChainAnswers(ok) => s.(ch := s.ch.(bid := Answered(ok)), past := s.past.(landed := ok))
    case BidRead(withTimeout) => AfterBid(s, withTimeout)
    case TimedOut => s.(stage := Leaving)
    case Exit => AfterExit(s)
  }

  ghost predicate IsRun(states: seq<State>, actions: seq<Action>) {
    && |states| == |actions| + 1
    && forall i :: 0 <= i < |actions| ==> Enabled(states[i], actions[i]) && states[i + 1] == Step(states[i], actions[i])
  }

  // ---------------------------------------------------------------- the pipeline

  /** How many results the loop is waiting for. */
  function Waiting(c: Channels): nat {
    One(c.query) + One(c.group) + One(c.shouldBid) + One(c.cluster != Nothing) + One(c.price) + One(c.bid != Nothing)
  }

  /** Each stage of the pipeline comes after the ones before it, and is entered once. */
  predicate InOrder(s: State) {
    && Waiting(s.ch) <= 1
    && (s.ch.storedGroup ==> s.ch.query || s.stage != Looping)
    && (s.ch.query || s.ch.group ==> s.group.None?)
    && (s.ch.query ==> !s.past.existing && !s.bidPlaced)
    && (s.group.None? ==> !s.ch.shouldBid && !s.past.accepted)
    && (s.ch.shouldBid ==> !s.past.accepted)
    && (!s.past.accepted ==> s.ch.cluster == Nothing && !s.reservation && s.past.grants == 0)
    && (s.ch.cluster != Nothing || s.ch.price ==> s.past.bids == [])
    && (s.ch.price ==> s.reservation && !s.bidPlaced)
    && (s.past.bids == [] ==> s.ch.bid == Nothing)
  }

  /** A reservation is granted at most once, and held exactly if it was. */
  predicate GrantKept(s: State) {
    && s.past.grants == One(s.reservation || s.ch.cluster == Answered(true))
    && (s.ch.cluster != Nothing ==> !s.reservation)
    && (s.stage != Finished ==> s.past.releases == 0 && s.past.closes == 0)
  }

  /** At most one bid, and only with everything in place for it. */
  predicate BidsJustified(s: State) {
    && |s.past.bids| <= 1
    && (s.past.bids != [] ==>
          && s.group.Some? && s.past.accepted && s.reservation && !s.past.existing
          && s.past.bids[0] <= s.group.value.maxPrice)
    && (s.past.existing ==> s.bidPlaced)
    && (s.bidPlaced && !s.past.existing ==> s.past.bids != [] && s.ch.bid == Nothing)
    && (s.ch.bid == Nothing ==> (s.past.landed ==> s.bidPlaced))
    && (s.ch.bid != Nothing ==> s.past.landed == (s.ch.bid == Answered(true)))
    && (s.past.bids == [] ==> !s.past.landed)
  }

  /** What the exit path has done. */
  predicate CleanedUp(s: State) {
    s.stage == Finished ==>
      if s.won then s.past.releases == 0 && s.past.closes == 0
      else s.past.releases == s.past.grants && s.past.closes == One(s.bidPlaced) && s.ch.cluster == Nothing
  }

  predicate Invariant(s: State) {
    InOrder(s) && GrantKept(s) && BidsJustified(s) && CleanedUp(s)
  }

  lemma StepKeepsInvariant(s: State, a: Action)
    requires Invariant(s) && Enabled(s, a)
    ensures Invariant(Step(s, a))
  {
  }

  /** A price is only awaited once the group is known, so reading it never meets a missing group. */
  lemma PricedGroupKnown(s: State)
    requires Invariant(s) && s.ch.price
    ensures s.group.Some?
  {
  }

  /**
   * Every run broadcasts at most one create-bid, and only after the group was
   * fetched, the bid accepted and the reservation granted, with no existing
   * bid found and a price within the maximum.
   */
  lemma {:induction false} RunBidsOnce(states: seq<State>, actions: seq<Action>, check: bool, i: nat)
    requires IsRun(states, actions) && states[0] == Initial(check) && i < |states|
    ensures Invariant(states[i])
    ensures |states[i].past.bids| <= 1
    ensures states[i].past.bids != [] ==>
              && states[i].group.Some? && states[i].past.accepted && states[i].past.grants == 1 && !states[i].past.existing
              && states[i].past.bids[0] <= states[i].group.value.maxPrice
  {
    if i > 0 {
      RunBidsOnce(states, actions, check, i - 1);
      StepKeepsInvariant(states[i - 1], actions[i - 1]);
    }
  }

  /** A bid of this provider for the order is on the chain: found there, or put there by this run. */
  predicate OnChain(s: State) {
    s.past.existing || s.past.landed
  }

  ghost predicate Moves(states: seq<State>, actions: seq<Action>, start: State) {
    IsRun(states, actions) && states[0] == start
  }

  /** However the run goes on, it does not end with an open bid on the chain. */
  ghost predicate NoBidLeftOpen(t: State) {
    forall states: seq<State>, actions: seq<Action>, i: nat ::
      Moves(states, actions, t) && i < |states| && states[i].stage == Finished && OnChain(states[i]) ==> states[i].past.closes == 1
  }

  /** After the loop was left with no answer to come, the bid stays as it is. */
  lemma {:induction false} BidSettled(states: seq<State>, actions: seq<Action>, t: State, i: nat)
    requires Invariant(t) && t.stage == Leaving && !t.won && t.ch.bid != Asked
    requires Moves(states, actions, t) && i < |states|
    ensures Invariant(states[i]) && states[i].stage != Looping && !states[i].won && states[i].ch.bid == t.ch.bid
  {
    if i > 0 {
      BidSettled(states, actions, t, i - 1);
      StepKeepsInvariant(states[i - 1], actions[i - 1]);
    }
  }

  /** From a loop left with the broadcast unread, a run ends with the bid on the chain and no close. */
  lemma UnreadIsLeftOpen(t: State)
    requires Invariant(t) && t.stage == Leaving && !t.won
    requires t.ch.bid == Asked || t.ch.bid == Answered(true)
    ensures !NoBidLeftOpen(t)
  {
    var answered := if t.ch.bid == Asked then Step(t, ChainAnswers(true)) else t;
    var end := Step(answered, Exit);
    var states := if t.ch.bid == Asked then [t, answered, end] else [t, end];
    var actions := if t.ch.bid == Asked then [ChainAnswers(true), Exit] else [Exit];
    assert Moves(states, actions, t);
    var last := |states| - 1;
    assert states[last] == end && OnChain(end) && end.past.closes == 0;
  }

  /**
   * The exact condition, at the moment the loop is left without winning: no
   * run leaves a bid open on the chain if and only if no broadcast is under
   * way and none has succeeded unread.
   */
  lemma ClosedIffRead(t: State)
    requires Invariant(t) && t.stage == Leaving && !t.won
    ensures NoBidLeftOpen(t) <==> t.ch.bid == Nothing || t.ch.bid == Answered(false)
  {
    if t.ch.bid == Nothing || t.ch.bid == Answered(false) {
      forall states: seq<State>, actions: seq<Action>, i: nat
        | Moves(states, actions, t) && i < |states| && states[i].stage == Finished && OnChain(states[i])
        ensures states[i].past.closes == 1
      {
        BidSettled(states, actions, t, i);
      }
    } else {
      UnreadIsLeftOpen(t);
    }
  }

  /** Whatever the run did before: shut down while the broadcast is under way, the bid reaches the chain and no close is sent. */
  lemma UnreadBidStaysOpen(s: State)
    requires Invariant(s) && s.stage == Looping && !s.won && s.ch.bid == Asked
    ensures exists states: seq<State> ::
              && IsRun(states, [Shutdown, ChainAnswers(true), Exit]) && states[0] == s
              && states[3].stage == Finished && OnChain(states[3])
              && |states[3].past.bids| == 1 && states[3].past.closes == 0
  {
    var actions := [Shutdown, ChainAnswers(true), Exit];
    var s1 := Step(s, actions[0]);
    var s2 := Step(s1, actions[1]);
    var s3 := Step(s2, actions[2]);
    var states := [s, s1, s2, s3];
    assert IsRun(states, actions);
  }

  /** A bid is being broadcast at the end of this run. */
  ghost predicate EndsBroadcasting(states: seq<State>, actions: seq<Action>, start: State) {
    && Moves(states, actions, start)
    && states[|actions|].stage == Looping && !states[|actions|].won && states[|actions|].ch.bid == Asked
  }

  /** A query that finds no bid leaves the loop as if there had been none to look for: the group result is let through. */
  lemma QueryReleasesGroup()
    ensures Step(Initial(true), BidQueried(Some(false))) == Initial(false)
  {
  }

  lemma BroadcastFromFetch()
    ensures exists states: seq<State>, actions: seq<Action> :: EndsBroadcasting(states, actions, Initial(false))
  {
    var s0 := Initial(false);
    var a0 := GroupFetched(Some(Order(5)));
    var s1 := Step(s0, a0);
    var a1 := BidDecided(Some(true));
    var s2 := Step(s1, a1);
    var a2 := ClusterAnswers(true);
    var s3 := Step(s2, a2);
    var s4 := Step(s3, ReservationRead);
    var a4 := Priced(Some(3));
    var s5 := Step(s4, a4);
    var states, actions := [s0, s1, s2, s3, s4, s5], [a0, a1, a2, ReservationRead, a4];
    assert IsRun(states, actions);
    assert states[5].ch.bid == Asked;
    assert EndsBroadcasting(states, actions, s0);
  }

  /** The loop can be in that situation, whether or not it looks for an existing bid first. */
  lemma BroadcastReachable(check: bool)
    ensures exists states: seq<State>, actions: seq<Action> :: EndsBroadcasting(states, actions, Initial(check))
  {
    hide Step, Enabled;
    BroadcastFromFetch();
    if check {
      var states, actions :| EndsBroadcasting(states, actions, Initial(false));
      QueryReleasesGroup();
      QueryPossible();
      var query := BidQueried(Some(false));
      var longer, more := [Initial(true)] + states, [query] + actions;
      forall i | 0 <= i < |more| ensures Enabled(longer[i], more[i]) && longer[i + 1] == Step(longer[i], more[i]) {
        if i > 0 {
          assert longer[i] == states[i - 1] && more[i] == actions[i - 1] && longer[i + 1] == states[i];
        }
      }
      assert EndsBroadcasting(longer, more, Initial(true));
    }
  }

  lemma QueryPossible()
    ensures Enabled(Initial(true), BidQueried(Some(false)))
  {
  }

  // ---------------------------------------------------------------- the loop's own variables

  class Runner {
    var stage: Stage
    var querying: bool
    var storedGroup: bool
    var groupch: bool
    var shouldBidCh: bool
    var clusterch: Call
    var pricech: bool
    var bidch: Call
    var bidTimeout: bool
    var group: Option<Order>
    var reservation: bool
    var won: bool
    var bidPlaced: bool
    ghost var past: History

    ghost function View(): State
      reads this
    {
      State(stage,
            Channels(querying, storedGroup, groupch, shouldBidCh, clusterch, pricech, bidch, bidTimeout),
            group, reservation, won, bidPlaced, past)
    }

    constructor (checkForExistingBid: bool)
      ensures View() == Initial(checkForExistingBid)
    {
      stage, querying, storedGroup, groupch := Looping, checkForExistingBid, checkForExistingBid, !checkForExistingBid;
      shouldBidCh, clusterch, pricech, bidch, bidTimeout := false, Nothing, false, Nothing, false;
      group, reservation, won, bidPlaced := None, false, false, false;
      past := History(false, false, false, [], 0, 0, 0);
    }

    method OnBidQueried(found: Option<bool>)
      requires stage == Looping && querying
      modifies this
      ensures View() == AfterQuery(old(View()), found)
    {
      querying := false;
      if found.None? {
        stage := Leaving;
        return;
      }
      past := past.(existing := found.value);
      if found.value {
        bidPlaced := true;
      }
      groupch := storedGroup;
      storedGroup := false;
    }

    method OnGroupFetched(order: Option<Order>)
      requires stage == Looping && groupch
      modifies this
      ensures View() == AfterGroup(old(View()), order)
    {
      groupch := false;
      if order.None? {
        stage := Leaving;
        return;
      }
      group := order;
      shouldBidCh := true;
    }

    method OnBidDecided(decision: Option<bool>)
      requires stage == Looping && shouldBidCh
      modifies this
      ensures View() == AfterDecision(old(View()), decision)
    {
      shouldBidCh := false;
      if decision.None? || !decision.value {
        stage := Leaving;
        return;
      }
      past := past.(accepted := true);
      clusterch := Asked;
    }

    method OnReservationRead()
      requires stage == Looping && clusterch.Answered?
      modifies this
      ensures View() == AfterReservation(old(View()))
    {
      var granted := clusterch.ok;
      clusterch := Nothing;
      if !granted {
        stage := Leaving;
        return;
      }
      reservation := true;
      if bidPlaced {
        return;
      }
      pricech := true;
    }

    method OnPriced(price: Option<int>)
      requires stage == Looping && pricech && group.Some?
      modifies this
      ensures View() == AfterPrice(old(View()), price)
    {
      pricech := false;
      if price.None? || group.value.maxPrice < price.value {
        stage := Leaving;
        return;
      }
      bidch := Asked;
      past := past.(bids := past.bids + [price.value]);
    }

    method OnBidRead(withTimeout: bool)
      requires stage == Looping && bidch.Answered?
      modifies this
      ensures View() == AfterBid(old(View()), withTimeout)
    {
      var ok := bidch.ok;
      bidch := Nothing;
      if !ok {
        stage := Leaving;
        return;
      }
      bidPlaced := true;
      bidTimeout := withTimeout;
    }

    /** Shutdown, a closed order and the bid timeout all leave the loop. */
    method OnStop()
      requires stage == Looping
      modifies this`stage
      ensures View() == Step(old(View()), Shutdown) == Step(old(View()), OrderClosed)
    {
      stage := Leaving;
    }

    method OnLeaseCreated(mine: bool)
      requires stage == Looping && !won
      modifies this`stage, this`won
      ensures View() == Step(old(View()), LeaseCreated(mine))
    {
      if mine {
        won := true;
      }
      stage := Leaving;
    }

    /** A reservation granted after the loop was left is taken over. */
    method AwaitReservation()
      requires clusterch != Asked
      modifies this`clusterch, this`reservation
      ensures clusterch == Nothing
      ensures reservation == (old(reservation) || old(clusterch) == Answered(true))
    {
      if clusterch != Nothing {
        if clusterch.ok {
          reservation := true;
        }
        clusterch := Nothing;
      }
    }

    method OnExit() returns (released: bool, closed: bool)
      requires stage == Leaving && (won || clusterch != Asked)
      modifies this
      ensures View() == AfterExit(old(View()))
      ensures past.releases == old(past.releases) + One(released)
      ensures past.closes == old(past.closes) + One(closed)
    {
      released, closed := false, false;
      if !won {
        AwaitReservation();
        if reservation {
          released := true;
        }
        if bidPlaced {
          closed := true;
        }
      }
      past := past.(releases := past.releases + One(released), closes := past.closes + One(closed));
      stage := Finished;
    }
  }
}
