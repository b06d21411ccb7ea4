/**
 * The runs of the bid pipeline (provider/bidengine/order.go) told by what
 * happened in them: which answers arrived, in which order, and what the run
 * had done about them by its end.
 */
module BidRuns {
  import opened Wrappers
  import opened BidOrder

  ghost predicate Occurs(actions: seq<Action>, i: nat, a: Action) {
    exists k :: 0 <= k < i && k < |actions| && actions[k] == a
  }

  lemma OccursNext(actions: seq<Action>, i: nat, a: Action)
    requires i < |actions|
    ensures Occurs(actions, i + 1, a) <==> Occurs(actions, i, a) || actions[i] == a
  {
  }

  // ---------------------------------------------------------------- leaving the loop

  /** What leaves the loop, as the source has it: every failure, a refusal, a price too high, a lease, and the three signals. */
  predicate EndsLoop(s: State, a: Action)
    requires Enabled(s, a)
  {
    match a
    case Shutdown => true
    case OrderClosed => true
    case TimedOut => true
    case LeaseCreated(_) => true
    case BidQueried(found) => found.None?
    case GroupFetched(order) => order.None?
    case BidDecided(decision) => decision.None? || decision == Some(false)
    case ReservationRead => s.ch.cluster == Answered(false)
    case Priced(price) => price.None? || price.value > s.group.value.maxPrice
    case BidRead(_) => s.ch.bid == Answered(false)
    case _ => false
  }

  lemma StageStep(s: State, a: Action)
    requires Enabled(s, a)
    ensures s.stage == Looping ==> Step(s, a).stage == if EndsLoop(s, a) then Leaving else Looping
    ensures s.stage == Leaving ==> Step(s, a).stage == if a == Exit then Finished else Leaving
    ensures s.stage == Finished ==> Step(s, a).stage == Finished
  {
  }

  /** A run is in its loop if and only if nothing has happened that leaves it. */
  lemma {:induction false} LoopingIff(states: seq<State>, actions: seq<Action>, check: bool, i: nat)
    requires Moves(states, actions, Initial(check)) && i < |states|
    ensures states[i].stage == Looping <==> forall k :: 0 <= k < i ==> !EndsLoop(states[k], actions[k])
    ensures states[i].stage == Looping ==> !states[i].won
  {
    hide Step, EndsLoop;
    if i > 0 {
      LoopingIff(states, actions, check, i - 1);
      StageStep(states[i - 1], actions[i - 1]);
      LateStep(states[i - 1], actions[i - 1]);
      WonStep(states[i - 1], actions[i - 1]);
    }
  }

  lemma LateStep(s: State, a: Action)
    requires Enabled(s, a)
    ensures EndsLoop(s, a) ==> s.stage == Looping
  {
  }

  // ---------------------------------------------------------------- what the records mean

  lemma WonStep(s: State, a: Action)
    requires Enabled(s, a)
    ensures Step(s, a).won == if a.LeaseCreated? then a.mine else s.won
    ensures a.LeaseCreated? ==> s.stage == Looping && Step(s, a).stage == Leaving
  {
  }

  /** The lease counts as won if and only if it was created for this provider while the loop ran. */
  lemma {:induction false} WonIff(states: seq<State>, actions: seq<Action>, check: bool, i: nat)
    requires Moves(states, actions, Initial(check)) && i < |states|
    ensures states[i].won <==> Occurs(actions, i, LeaseCreated(true))
  {
    hide Step;
    if i > 0 {
      WonIff(states, actions, check, i - 1);
      LoopingIff(states, actions, check, i - 1);
      WonStep(states[i - 1], actions[i - 1]);
      OccursNext(actions, i - 1, LeaseCreated(true));
    }
  }

  /** How often the cluster granted a reservation. */
  function Grants(actions: seq<Action>): nat {
    if actions == [] then 0
    else Grants(actions[..|actions| - 1]) + One(actions[|actions| - 1] == ClusterAnswers(true))
  }

  lemma RecordStep(s: State, a: Action)
    requires Invariant(s) && Enabled(s, a)
    ensures Step(s, a).past.existing == (s.past.existing || a == BidQueried(Some(true)))
    ensures Step(s, a).past.accepted == (s.past.accepted || a == BidDecided(Some(true)))
    ensures Step(s, a).past.landed == (s.past.landed || a == ChainAnswers(true))
    ensures Step(s, a).past.grants == s.past.grants + One(a == ClusterAnswers(true))
  {
  }

  /** What was found, accepted, granted and taken by the chain is what the actions say. */
  lemma {:induction false} RunRecords(states: seq<State>, actions: seq<Action>, check: bool, i: nat)
    requires Moves(states, actions, Initial(check)) && i < |states|
    ensures Invariant(states[i])
    ensures states[i].past.existing <==> Occurs(actions, i, BidQueried(Some(true)))
    ensures states[i].past.accepted <==> Occurs(actions, i, BidDecided(Some(true)))
    ensures states[i].past.landed <==> Occurs(actions, i, ChainAnswers(true))
    ensures states[i].past.grants == Grants(actions[..i])
  {
    hide Step, Invariant;
    RunBidsOnce(states, actions, check, i);
    if i > 0 {
      RunRecords(states, actions, check, i - 1);
      RecordStep(states[i - 1], actions[i - 1]);
      OccursNext(actions, i - 1, BidQueried(Some(true)));
      OccursNext(actions, i - 1, BidDecided(Some(true)));
      OccursNext(actions, i - 1, ChainAnswers(true));
      assert actions[..i][..i - 1] == actions[..i - 1];
    }
  }

  /** Step `k` read that the chain took the bid. */
  ghost predicate ReadsSuccess(states: seq<State>, actions: seq<Action>, k: nat)
    requires |states| == |actions| + 1
  {
    k < |actions| && actions[k].BidRead? && states[k].ch.bid == Answered(true)
  }

  lemma PlacedStep(s: State, a: Action)
    requires Enabled(s, a)
    ensures Step(s, a).bidPlaced == (s.bidPlaced || a == BidQueried(Some(true)) || (a.BidRead? && s.ch.bid == Answered(true)))
  {
  }

  /** A bid is recorded as placed if and only if one was found or the success of one was read. */
  lemma {:induction false} PlacedIff(states: seq<State>, actions: seq<Action>, check: bool, i: nat)
    requires Moves(states, actions, Initial(check)) && i < |states|
    ensures states[i].bidPlaced <==>
            Occurs(actions, i, BidQueried(Some(true))) || exists k: nat :: k < i && ReadsSuccess(states, actions, k)
  {
    hide Step;
    if i > 0 {
      PlacedIff(states, actions, check, i - 1);
      PlacedStep(states[i - 1], actions[i - 1]);
      OccursNext(actions, i - 1, BidQueried(Some(true)));
      if actions[i - 1].BidRead? && states[i - 1].ch.bid == Answered(true) {
        assert ReadsSuccess(states, actions, i - 1);
      }
    }
  }

  lemma TimeoutStep(s: State, a: Action)
    requires Invariant(s) && Enabled(s, a)
    ensures Step(s, a).ch.timeout == if a.BidRead? && s.ch.bid == Answered(true) then a.withTimeout else s.ch.timeout
  {
  }

  /** The loop only times out after it read the success of its bid with a timeout configured. */
  lemma {:induction false} TimeoutAfterBid(states: seq<State>, actions: seq<Action>, check: bool, i: nat)
    requires Moves(states, actions, Initial(check)) && i < |states| && states[i].ch.timeout
    ensures exists k: nat :: k < i && ReadsSuccess(states, actions, k) && actions[k].withTimeout
  {
    hide Step, Invariant;
    if i > 0 {
      RunBidsOnce(states, actions, check, i - 1);
      TimeoutStep(states[i - 1], actions[i - 1]);
      if actions[i - 1].BidRead? && states[i - 1].ch.bid == Answered(true) {
        assert ReadsSuccess(states, actions, i - 1);
      } else {
        TimeoutAfterBid(states, actions, check, i - 1);
      }
    }
  }

  // ---------------------------------------------------------------- the one bid

  lemma GroupStep(s: State, a: Action)
    requires Invariant(s) && Enabled(s, a)
    ensures Step(s, a).group == if a.GroupFetched? && a.order.Some? then a.order else s.group
    ensures a.GroupFetched? ==> s.group.None?
  {
  }

  lemma {:induction false} GroupIsFetched(states: seq<State>, actions: seq<Action>, check: bool, i: nat)
    requires Moves(states, actions, Initial(check)) && i < |states| && states[i].group.Some?
    ensures Occurs(actions, i, GroupFetched(states[i].group))
  {
    hide Step, Invariant;
    if i > 0 {
      RunBidsOnce(states, actions, check, i - 1);
      GroupStep(states[i - 1], actions[i - 1]);
      OccursNext(actions, i - 1, GroupFetched(states[i].group));
      if states[i - 1].group == states[i].group {
        GroupIsFetched(states, actions, check, i - 1);
      }
    }
  }

  lemma BidsStep(s: State, a: Action)
    requires Enabled(s, a)
    ensures Step(s, a).past.bids ==
            if a.Priced? && a.price.Some? && a.price.value <= s.group.value.maxPrice then s.past.bids + [a.price.value] else s.past.bids
  {
  }

  /** Group, acceptance, grant and price came one after the other, the price is within the maximum, and no bid had been found. */
  ghost predicate BidAt(actions: seq<Action>, g: nat, d: nat, c: nat, p: nat, order: Order, price: int) {
    && g < d < c < p < |actions|
    && actions[g] == GroupFetched(Some(order)) && actions[d] == BidDecided(Some(true))
    && actions[c] == ClusterAnswers(true) && actions[p] == Priced(Some(price))
    && price <= order.maxPrice
    && !Occurs(actions, p, BidQueried(Some(true)))
  }

  lemma GrantNeeded(s: State)
    requires Invariant(s) && Enabled(s, Priced(None))
    ensures s.group.Some? && s.past.grants == 1 && !s.past.existing
  {
  }

  lemma {:induction false} GrantOccurs(actions: seq<Action>)
    requires Grants(actions) > 0
    ensures Occurs(actions, |actions|, ClusterAnswers(true))
  {
    var n := |actions| - 1;
    if actions[n] != ClusterAnswers(true) {
      GrantOccurs(actions[..n]);
      var k :| 0 <= k < n && k < |actions[..n]| && actions[..n][k] == ClusterAnswers(true);
      assert actions[k] == ClusterAnswers(true);
    }
  }

  lemma OccursBefore(actions: seq<Action>, i: nat, a: Action) returns (k: nat)
    requires i <= |actions| && Occurs(actions[..i], i, a)
    ensures k < i && actions[k] == a
  {
    k :| k < i && k < |actions[..i]| && actions[..i][k] == a;
  }

  lemma GroupUnchanged(states: seq<State>, actions: seq<Action>, check: bool, i: nat, j: nat)
    requires Moves(states, actions, Initial(check)) && i <= j < |states| && states[i].group.Some?
    ensures states[j].group == states[i].group
    decreases j
  {
    hide Step, Invariant;
    if i < j {
      GroupUnchanged(states, actions, check, i, j - 1);
      RunBidsOnce(states, actions, check, j - 1);
      GroupStep(states[j - 1], actions[j - 1]);
    }
  }

  lemma AcceptedBeforeGrant(s: State)
    requires Invariant(s) && Enabled(s, ClusterAnswers(true))
    ensures s.past.accepted
  {
  }

  lemma FetchedBeforeAcceptance(s: State)
    requires Invariant(s) && Enabled(s, BidDecided(Some(true)))
    ensures s.group.Some?
  {
  }

  /** The steps before a price that is read. */
  lemma PipelineBefore(states: seq<State>, actions: seq<Action>, check: bool, p: nat) returns (g: nat, d: nat, c: nat)
    requires Moves(states, actions, Initial(check)) && p < |actions| && actions[p].Priced?
    ensures g < d < c < p && states[p].group.Some?
    ensures actions[g] == GroupFetched(states[p].group) && actions[d] == BidDecided(Some(true)) && actions[c] == ClusterAnswers(true)
    ensures !Occurs(actions, p, BidQueried(Some(true)))
  {
    hide Step, Invariant, Enabled;
    RunRecords(states, actions, check, p);
    assert Enabled(states[p], actions[p]);
    PriceAwaited(states[p], actions[p]);
    GrantNeeded(states[p]);
    GrantOccurs(actions[..p]);
    c := OccursBefore(actions, p, ClusterAnswers(true));
    assert Enabled(states[c], actions[c]);
    RunRecords(states, actions, check, c);
    AcceptedBeforeGrant(states[c]);
    d :| d < c && d < |actions| && actions[d] == BidDecided(Some(true));
    assert Enabled(states[d], actions[d]);
    RunRecords(states, actions, check, d);
    FetchedBeforeAcceptance(states[d]);
    GroupIsFetched(states, actions, check, d);
    GroupUnchanged(states, actions, check, d, p);
    g :| g < d && g < |actions| && actions[g] == GroupFetched(states[d].group);
  }

  lemma PriceAwaited(s: State, a: Action)
    requires a.Priced? && Enabled(s, a)
    ensures Enabled(s, Priced(None))
  {
  }

  /**
   * In every run: at most one create-bid is broadcast, and then the group was
   * fetched, the bid accepted, the reservation granted and a price within
   * that group's maximum read, in this order, with no existing bid found.
   */
  lemma {:induction false} BidInOrder(states: seq<State>, actions: seq<Action>, check: bool, i: nat)
    requires Moves(states, actions, Initial(check)) && i < |states| && states[i].past.bids != []
    ensures |states[i].past.bids| == 1
    ensures exists g: nat, d: nat, c: nat, p: nat, order: Order :: p < i && BidAt(actions, g, d, c, p, order, states[i].past.bids[0])
  {
    hide Step, Invariant;
    RunBidsOnce(states, actions, check, i);
    if i > 0 {
      BidsStep(states[i - 1], actions[i - 1]);
      if states[i - 1].past.bids == states[i].past.bids {
        BidInOrder(states, actions, check, i - 1);
      } else {
        RunBidsOnce(states, actions, check, i - 1);
        var g, d, c := PipelineBefore(states, actions, check, i - 1);
        var price := actions[i - 1].price.value;
        assert states[i].past.bids == states[i - 1].past.bids + [price];
        assert BidAt(actions, g, d, c, i - 1, states[i - 1].group.value, price);
      }
    }
  }

  // ---------------------------------------------------------------- the end

  /**
   * A finished run in which this provider's lease was not created has
   * released what the cluster granted, also after the loop was left, exactly
   * once, and sent one close if a bid was found or the success of one read;
   * a run that won the lease has done neither.
   */
  lemma RunCleansUp(states: seq<State>, actions: seq<Action>, check: bool, i: nat)
    requires Moves(states, actions, Initial(check)) && i < |states| && states[i].stage == Finished
    ensures var placed := Occurs(actions, i, BidQueried(Some(true))) || exists k: nat :: k < i && ReadsSuccess(states, actions, k);
            if Occurs(actions, i, LeaseCreated(true)) then states[i].past.releases == 0 && states[i].past.closes == 0
            else states[i].past.releases == Grants(actions[..i]) <= 1 && states[i].past.closes == One(placed)
  {
    WonIff(states, actions, check, i);
    PlacedIff(states, actions, check, i);
    RunRecords(states, actions, check, i);
  }
}
