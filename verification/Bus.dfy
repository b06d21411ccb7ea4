/**
 * The event bus (pubsub/bus.go): a tree of goroutines, each handing every
 * event it receives to its subscribers one rendezvous at a time, and
 * buffering it for its own reader. Runs interleave the nodes freely.
 */
module Bus {
  import opened Wrappers

  /** Where a node's goroutine is: in its select, in the middle of handing an event over, draining its subscribers, ended. */
  datatype Phase<E> = Idle | Delivering(event: E, todo: set<nat>) | Closing | Done

  /**
   * The last five fields are history: events emitted and received, the
   * parent's buffer when the node was cloned from it, how much the parent
   * had received by then, and which of the parent's events comes first here.
   */
  datatype Node<E> = Node(
    parent: Option<nat>,
    evbuf: seq<E>,
    subs: set<nat>,
    phase: Phase<E>,
    emitted: seq<E>,
    received: seq<E>,
    inherited: seq<E>,
    start: nat,
    offset: nat)

  /** Nodes are named by their index; a clone is younger than its parent. */
  type Tree<E> = seq<Node<E>>

  datatype Action<E> =
    | Publish(event: E)
    | Emit(node: nat)
    | Deliver(node: nat, sub: nat)
    | SkipStopped(node: nat, sub: nat)
    | Delivered(node: nat)
    | Subscribe(node: nat)
    | Close(node: nat)
    | Unsubscribe(node: nat, sub: nat)
    | RootDone

  function NewBus<E>(): Node<E> {
    Node(None, [], {}, Idle, [], [], [], 0, 0)
  }

  function NewSubscriber<E>(parent: Node<E>, id: nat): Node<E> {
    Node(Some(id), parent.evbuf, {}, Idle, [], [], parent.evbuf, |parent.received|,
         if parent.parent.None? then |parent.received| else |parent.emitted|)
  }

  /** The `pubch` case: buffer in subscriber mode, then start handing the event to the children. */
  function Take<E>(n: Node<E>, event: E): Node<E> {
    n.(received := n.received + [event],
       evbuf := if n.parent.Some? then n.evbuf + [event] else n.evbuf,
       phase := Delivering(event, n.subs))
  }

  function EmitFirst<E>(n: Node<E>): Node<E>
    requires n.evbuf != []
  {
    n.(emitted := n.emitted + [n.evbuf[0]], evbuf := n.evbuf[1..])
  }

  function HandedTo<E>(n: Node<E>, sub: nat): Node<E>
    requires n.phase.Delivering?
  {
    n.(phase := Delivering(n.phase.event, n.phase.todo - {sub}))
  }

  predicate Stopped<E>(n: Node<E>) {
    n.phase.Closing? || n.phase.Done?
  }

  predicate Owed<E>(n: Node<E>, sub: nat) {
    n.phase.Delivering? && sub in n.phase.todo
  }

  predicate Enabled<E>(t: Tree<E>, a: Action<E>) {
    match a
    case Publish(_) => |t| > 0 && t[0].phase.Idle? && t[0].parent.None?
    case Emit(n) => n < |t| && t[n].phase.Idle? && t[n].parent.Some? && t[n].evbuf != []
    case Deliver(n, sub) => n < |t| && sub < |t| && n != sub && Owed(t[n], sub) && t[sub].phase.Idle?
    case SkipStopped(n, sub) => n < |t| && sub < |t| && Owed(t[n], sub) && Stopped(t[sub])
    case Delivered(n) => n < |t| && t[n].phase.Delivering? && t[n].phase.todo == {}
    case Subscribe(n) => n < |t| && t[n].phase.Idle?
    case Close(n) => n < |t| && t[n].phase.Idle?
    case Unsubscribe(n, sub) =>
      && n < |t| && sub < |t| && n != sub
      && (t[n].phase.Idle? || t[n].phase.Closing?)
      && t[sub].parent == Some(n) && t[sub].phase.Closing? && t[sub].subs == {}
    case RootDone => |t| > 0 && t[0].parent.None? && t[0].phase.Closing? && t[0].subs == {}
  }

  function Step<E>(t: Tree<E>, a: Action<E>): Tree<E>
    requires Enabled(t, a)
  {
    match a
    case Publish(event) => t[0 := Take(t[0], event)]
    case Emit(n) => t[n := EmitFirst(t[n])]
    case Deliver(n, sub) => t[n := HandedTo(t[n], sub)][sub := Take(t[sub], t[n].phase.event)]
    case SkipStopped(n, sub) => t[n := HandedTo(t[n], sub)]
    case Delivered(n) => t[n := t[n].(phase := Idle)]
    case Subscribe(n) => t[n := t[n].(subs := t[n].subs + {|t|})] + [NewSubscriber(t[n], n)]
    case Close(n) => t[n := t[n].(phase := Closing)]
    case Unsubscribe(n, sub) => t[n := t[n].(subs := t[n].subs - {sub})][sub := t[sub].(phase := Done)]
    case RootDone => t[0 := t[0].(phase := Done)]
  }

  ghost predicate IsRun<E>(trees: seq<Tree<E>>, actions: seq<Action<E>>) {
    && |trees| == |actions| + 1
    && trees[0] == [NewBus()]
    && forall i :: 0 <= i < |actions| ==> Enabled(trees[i], actions[i]) && trees[i + 1] == Step(trees[i], actions[i])
  }

  // ---------------------------------------------------------------- what every run keeps

  /** Everything a node has to emit, in order. */
  function Stream<E>(n: Node<E>): seq<E> {
    n.inherited + n.received
  }

  /** Nothing a subscriber was given is lost, repeated or reordered between its arrival and its emission. */
  ghost predicate Balanced<E>(n: Node<E>) {
    if n.parent.None? then n.evbuf == [] && n.emitted == [] && n.inherited == []
    else n.emitted + n.evbuf == Stream(n)
  }

  /** What the child received is what the parent received since, but for an event still owed; a prefix of it once the child stops. */
  ghost predicate Follows<E>(p: Node<E>, c: Node<E>, child: nat) {
    && c.start <= |p.received|
    && var since := p.received[c.start..];
       if Stopped(c) then c.received <= since
       else if Owed(p, child) then c.received + [p.phase.event] == since
       else c.received == since
  }

  /** The child began with exactly what the parent had not emitted. */
  ghost predicate Inherits<E>(p: Node<E>, c: Node<E>) {
    && c.start <= |p.received|
    && c.offset <= |p.inherited| + c.start
    && c.inherited == Stream(p)[c.offset..|p.inherited| + c.start]
  }

  ghost predicate Linked<E>(p: Node<E>, c: Node<E>, child: nat) {
    Follows(p, c, child) && Inherits(p, c) && (!c.phase.Done? ==> child in p.subs)
  }

  ghost predicate NodeOk<E>(t: Tree<E>, n: nat)
    requires n < |t|
  {
    && Balanced(t[n])
    && (t[n].parent.Some? <==> n > 0)
    && (t[n].parent.Some? ==> t[n].parent.value < n && Linked(t[t[n].parent.value], t[n], n))
    && (forall c :: c in t[n].subs ==> c < |t| && t[c].parent == Some(n) && !t[c].phase.Done?)
    && (t[n].phase.Done? ==> t[n].subs == {})
    && (t[n].phase.Delivering? ==> t[n].phase.todo <= t[n].subs)
  }

  ghost predicate Invariant<E>(t: Tree<E>) {
    |t| > 0 && forall n :: 0 <= n < |t| ==> NodeOk(t, n)
  }

  lemma TakeLinks<E>(p: Node<E>, c: Node<E>, child: nat, event: E)
    requires p.phase.Idle? && Linked(p, c, child)
    requires child in p.subs || Stopped(c)
    ensures Linked(Take(p, event), c, child)
  {
    var since := p.received[c.start..];
    assert (p.received + [event])[c.start..] == since + [event];
    assert Stream(Take(p, event))[c.offset..|p.inherited| + c.start] == Stream(p)[c.offset..|p.inherited| + c.start];
  }

  lemma TakeBalances<E>(n: Node<E>, event: E)
    requires Balanced(n)
    ensures Balanced(Take(n, event))
  {
    if n.parent.Some? {
      assert n.emitted + (n.evbuf + [event]) == Stream(n) + [event];
    }
  }

  ghost predicate ChildrenLinked<E>(t: Tree<E>, p: Node<E>, id: nat, except: set<nat>) {
    forall c :: 0 <= c < |t| && c !in except && t[c].parent == Some(id) ==> Linked(p, t[c], c)
  }

  /** `n` can stand in for node `id` as far as the node itself and its parent are concerned. */
  ghost predicate StandsIn<E>(t: Tree<E>, id: nat, n: Node<E>)
    requires id < |t|
  {
    && n.parent == t[id].parent && n.subs <= t[id].subs && Balanced(n)
    && (n.phase.Delivering? ==> n.phase.todo <= n.subs)
    && (n.phase.Done? ==> n.subs == {})
  }

  /** One node moves. */
  lemma Replace<E>(t: Tree<E>, id: nat, n: Node<E>)
    requires Invariant(t) && id < |t| && StandsIn(t, id, n)
    requires n.parent.Some? ==> !n.phase.Done? && n.parent.value < |t| && Linked(t[n.parent.value], n, id)
    requires ChildrenLinked(t, n, id, {})
    ensures Invariant(t[id := n])
  {
    hide Linked, Balanced;
    var u := t[id := n];
    forall i | 0 <= i < |u| ensures NodeOk(u, i) {
      assert NodeOk(t, i) && NodeOk(t, id);
    }
  }

  /** A node and one of its children move together. */
  lemma ReplacePair<E>(t: Tree<E>, id: nat, n: Node<E>, sub: nat, c: Node<E>)
    requires Invariant(t) && id < |t| && sub < |t| && t[sub].parent == Some(id)
    requires StandsIn(t, id, n) && StandsIn(t, sub, c)
    requires n.parent.Some? ==> !n.phase.Done? && n.parent.value < |t| && Linked(t[n.parent.value], n, id)
    requires Linked(n, c, sub) && (c.phase.Done? ==> sub !in n.subs)
    requires ChildrenLinked(t, n, id, {sub}) && ChildrenLinked(t, c, sub, {})
    ensures Invariant(t[id := n][sub := c])
  {
    hide Linked, Balanced;
    assert NodeOk(t, sub) && NodeOk(t, id);
    var u := t[id := n][sub := c];
    forall i | 0 <= i < |u| ensures NodeOk(u, i) {
      assert NodeOk(t, i);
    }
  }

  lemma PublishKeeps<E>(t: Tree<E>, event: E)
    requires Invariant(t) && Enabled(t, Publish(event))
    ensures Invariant(Step(t, Publish(event)))
  {
    assert NodeOk(t, 0);
    TakeBalances(t[0], event);
    forall c | 0 <= c < |t| && t[c].parent == Some(0) ensures Linked(Take(t[0], event), t[c], c) {
      assert NodeOk(t, c);
      TakeLinks(t[0], t[c], c, event);
    }
    Replace(t, 0, Take(t[0], event));
  }

  /** A move that leaves what a node received, whom it serves and whom it owes alone. */
  lemma QuietlyLinked<E>(t: Tree<E>, id: nat, n: Node<E>)
    requires Invariant(t) && id < |t|
    requires n.received == t[id].received && n.inherited == t[id].inherited && n.subs == t[id].subs
    requires forall c :: 0 <= c < |t| && t[c].parent == Some(id) ==> Stopped(t[c]) || (Owed(n, c) <==> Owed(t[id], c))
    requires n.phase.Delivering? && t[id].phase.Delivering? ==> n.phase.event == t[id].phase.event
    ensures ChildrenLinked(t, n, id, {})
  {
    forall c | 0 <= c < |t| && t[c].parent == Some(id) ensures Linked(n, t[c], c) {
      assert NodeOk(t, c);
    }
  }

  lemma EmitKeeps<E>(t: Tree<E>, id: nat)
    requires Invariant(t) && Enabled(t, Emit(id))
    ensures Invariant(Step(t, Emit(id)))
  {
    assert NodeOk(t, id);
    var n := EmitFirst(t[id]);
    assert n.emitted + n.evbuf == t[id].emitted + t[id].evbuf;
    QuietlyLinked(t, id, n);
    Replace(t, id, n);
  }

  lemma DeliverKeeps<E>(t: Tree<E>, id: nat, sub: nat)
    requires Invariant(t) && Enabled(t, Deliver(id, sub))
    ensures Invariant(Step(t, Deliver(id, sub)))
  {
    assert NodeOk(t, id);
    assert sub in t[id].subs;
    assert NodeOk(t, sub);
    var n, c := HandedTo(t[id], sub), Take(t[sub], t[id].phase.event);
    TakeBalances(t[sub], t[id].phase.event);
    forall d | 0 <= d < |t| && d != sub && t[d].parent == Some(id) ensures Linked(n, t[d], d) {
      assert NodeOk(t, d);
    }
    forall d | 0 <= d < |t| && t[d].parent == Some(sub) ensures Linked(c, t[d], d) {
      assert NodeOk(t, d);
      TakeLinks(t[sub], t[d], d, t[id].phase.event);
    }
    ReplacePair(t, id, n, sub, c);
  }

  lemma SubscribeKeeps<E>(t: Tree<E>, id: nat)
    requires Invariant(t) && Enabled(t, Subscribe(id))
    ensures Invariant(Step(t, Subscribe(id)))
  {
    hide Linked, Balanced;
    var n, c := t[id].(subs := t[id].subs + {|t|}), NewSubscriber(t[id], id);
    assert NodeOk(t, id);
    NewIsLinked(t[id], n, c, |t|);
    var u := t[id := n] + [c];
    forall i | 0 <= i < |u| ensures NodeOk(u, i) {
      if i < |t| {
        assert NodeOk(t, i);
        SubscribeLinks(t, id, n, i);
      }
    }
  }

  /** A new subscriber changes nothing for the nodes that were there. */
  lemma SubscribeLinks<E>(t: Tree<E>, id: nat, n: Node<E>, i: nat)
    requires Invariant(t) && id < |t| && i < |t| && n == t[id].(subs := t[id].subs + {|t|})
    ensures Balanced(t[id := n][i])
    ensures i > 0 ==> t[i].parent.Some? && t[i].parent.value < i && Linked(t[id := n][t[i].parent.value], t[id := n][i], i)
  {
    assert NodeOk(t, i);
  }

  lemma NewIsLinked<E>(p: Node<E>, n: Node<E>, c: Node<E>, child: nat)
    requires Balanced(p) && p.phase.Idle? && n == p.(subs := p.subs + {child})
    requires exists id :: c == NewSubscriber(p, id)
    ensures Linked(n, c, child) && Balanced(c)
  {
    if p.parent.Some? {
      assert Stream(p)[|p.emitted|..] == p.evbuf;
    }
  }

  lemma UnsubscribeKeeps<E>(t: Tree<E>, id: nat, sub: nat)
    requires Invariant(t) && Enabled(t, Unsubscribe(id, sub))
    ensures Invariant(Step(t, Unsubscribe(id, sub)))
  {
    assert NodeOk(t, id) && NodeOk(t, sub);
    var n, c := t[id].(subs := t[id].subs - {sub}), t[sub].(phase := Done);
    forall d | 0 <= d < |t| && d != sub && t[d].parent == Some(id) ensures Linked(n, t[d], d) {
      assert NodeOk(t, d);
    }
    forall d | 0 <= d < |t| && t[d].parent == Some(sub) ensures Linked(c, t[d], d) {
      assert NodeOk(t, d);
    }
    ReplacePair(t, id, n, sub, c);
  }

  lemma PhaseKeeps<E>(t: Tree<E>, a: Action<E>)
    requires Invariant(t) && Enabled(t, a)
    requires a.SkipStopped? || a.Delivered? || a.Close? || a.RootDone?
    ensures Invariant(Step(t, a))
  {
    var id := if a.RootDone? then 0 else a.node;
    var n := Step(t, a)[id];
    assert NodeOk(t, id);
    QuietlyLinked(t, id, n);
    Replace(t, id, n);
  }

  lemma StepKeepsInvariant<E>(t: Tree<E>, a: Action<E>)
    requires Invariant(t) && Enabled(t, a)
    ensures Invariant(Step(t, a))
  {
    match a
    case Publish(event) => PublishKeeps(t, event);
    case Emit(id) => EmitKeeps(t, id);
    case Deliver(id, sub) => DeliverKeeps(t, id, sub);
    case Subscribe(id) => SubscribeKeeps(t, id);
    case Unsubscribe(id, sub) => UnsubscribeKeeps(t, id, sub);
    case _ => PhaseKeeps(t, a);
  }

  lemma {:induction false} RunKeepsInvariant<E>(trees: seq<Tree<E>>, actions: seq<Action<E>>, i: nat)
    requires IsRun(trees, actions) && i < |trees|
    ensures Invariant(trees[i])
  {
    if i > 0 {
      RunKeepsInvariant(trees, actions, i - 1);
      StepKeepsInvariant(trees[i - 1], actions[i - 1]);
    }
  }

  /** In every run, a node that has ended has no subscriber left: all its clones have ended before it. */
  lemma EndedDrained<E>(trees: seq<Tree<E>>, actions: seq<Action<E>>, i: nat, c: nat)
    requires IsRun(trees, actions) && i < |trees| && 0 < c < |trees[i]|
    ensures trees[i][c].parent.Some? && trees[i][c].parent.value < c
    ensures trees[i][trees[i][c].parent.value].phase.Done? ==> trees[i][c].phase.Done?
    ensures trees[i][c].phase.Done? <==> c !in trees[i][trees[i][c].parent.value].subs
  {
    RunKeepsInvariant(trees, actions, i);
    assert NodeOk(trees[i], c);
    assert NodeOk(trees[i], trees[i][c].parent.value);
  }

  // ---------------------------------------------------------------- one clone and its parent

  /** Nodes stay, and so does where each of them began. */
  ghost predicate Continues<E>(t: Tree<E>, u: Tree<E>) {
    && |t| <= |u|
    && forall n :: 0 <= n < |t| ==>
         && u[n].parent == t[n].parent && u[n].inherited == t[n].inherited
         && u[n].start == t[n].start && u[n].offset == t[n].offset
  }

  lemma {:induction false} RunContinues<E>(trees: seq<Tree<E>>, actions: seq<Action<E>>, i: nat, j: nat)
    requires IsRun(trees, actions) && i <= j < |trees|
    ensures Continues(trees[i], trees[j])
    decreases j
  {
    hide Step;
    if i < j {
      RunContinues(trees, actions, i, j - 1);
      StepContinues(trees[j - 1], actions[j - 1]);
    }
  }

  lemma StepContinues<E>(t: Tree<E>, a: Action<E>)
    requires Enabled(t, a)
    ensures Continues(t, Step(t, a))
  {
  }

  /**
   * A clone made in step `j` of any run: at any later time what it has
   * emitted followed by what it buffers is the parent's buffer at the time
   * of cloning followed by what the parent received since then, all of it
   * unless the clone has stopped or the parent is about to hand it the last
   * event.
   */
  lemma CloneMissesNothing<E>(trees: seq<Tree<E>>, actions: seq<Action<E>>, j: nat, i: nat)
    requires IsRun(trees, actions) && j < |actions| && j < i < |trees| && actions[j].Subscribe?
    ensures var before, child := trees[j][actions[j].node], |trees[j]|;
            && child < |trees[i]| && actions[j].node < |trees[i]| && |before.received| <= |trees[i][actions[j].node].received|
            && var parent, clone := trees[i][actions[j].node], trees[i][child];
               var since := parent.received[|before.received|..];
               && clone.emitted + clone.evbuf == before.evbuf + clone.received
               && clone.received <= since
               && (!Stopped(clone) ==> since == clone.received + if Owed(parent, child) then [parent.phase.event] else [])
  {
    var child := |trees[j]|;
    assert trees[j + 1] == Step(trees[j], actions[j]);
    RunContinues(trees, actions, j + 1, i);
    RunKeepsInvariant(trees, actions, i);
    assert NodeOk(trees[i], child);
  }

  // ---------------------------------------------------------------- any depth

  /** The published event that comes first in a node's stream. */
  ghost function Origin<E>(t: Tree<E>, n: nat): nat
    requires Invariant(t) && n < |t|
  {
    assert NodeOk(t, n);
    if n == 0 then 0 else Origin(t, t[n].parent.value) + t[n].offset
  }

  /** Every node on the way up is running and has handed over what it received. */
  ghost predicate Settled<E>(t: Tree<E>, n: nat)
    requires Invariant(t) && n < |t|
  {
    assert NodeOk(t, n);
    !Stopped(t[n]) && (n > 0 ==> !Owed(t[t[n].parent.value], n) && Settled(t, t[n].parent.value))
  }

  lemma LinkedStreams<E>(p: Node<E>, c: Node<E>, child: nat)
    requires Linked(p, c, child)
    ensures c.offset <= |Stream(p)| && Stream(c) <= Stream(p)[c.offset..]
    ensures !Stopped(c) && !Owed(p, child) ==> Stream(c) == Stream(p)[c.offset..]
  {
    var k := |p.inherited| + c.start;
    var since := p.received[c.start..];
    assert Stream(p)[k..] == since;
    assert Stream(p)[c.offset..] == c.inherited + since;
  }

  /** At any depth a node's stream is a contiguous run of the published events; nothing is missing at its end once settled. */
  lemma {:induction false} StreamIsSegment<E>(t: Tree<E>, n: nat)
    requires Invariant(t) && n < |t|
    ensures Origin(t, n) <= |t[0].received| && Stream(t[n]) <= t[0].received[Origin(t, n)..]
    ensures Settled(t, n) ==> Stream(t[n]) == t[0].received[Origin(t, n)..]
  {
    assert NodeOk(t, n) && NodeOk(t, 0);
    if n == 0 {
      assert Stream(t[0]) == t[0].received;
    } else {
      var p := t[n].parent.value;
      StreamIsSegment(t, p);
      LinkedStreams(t[p], t[n], n);
      SegmentOfSegment(t[0].received, Stream(t[p]), Stream(t[n]), Origin(t, p), t[n].offset);
    }
  }

  lemma SegmentOfSegment<E>(all: seq<E>, mid: seq<E>, low: seq<E>, a: nat, b: nat)
    requires a <= |all| && mid <= all[a..]
    requires b <= |mid| && low <= mid[b..]
    ensures a + b <= |all| && low <= all[a + b..]
    ensures mid == all[a..] && low == mid[b..] ==> low == all[a + b..]
  {
    assert all[a + b..] == all[a..][b..];
    assert mid == all[a..][..|mid|];
    assert mid[b..] == all[a..][b..|mid|];
  }

  /** The events published on the bus, in order. */
  function PublishedOf<E>(actions: seq<Action<E>>): seq<E> {
    if actions == [] then []
    else
      var last := actions[|actions| - 1];
      PublishedOf(actions[..|actions| - 1]) + if last.Publish? then [last.event] else []
  }

  lemma RootStep<E>(t: Tree<E>, a: Action<E>)
    requires Invariant(t) && Enabled(t, a)
    ensures |Step(t, a)| > 0
    ensures Step(t, a)[0].received == t[0].received + if a.Publish? then [a.event] else []
  {
    if a.Deliver? {
      assert NodeOk(t, a.node);
      assert a.sub in t[a.node].subs;
      assert NodeOk(t, a.sub);
    }
  }

  lemma {:induction false} RootReceivesPublished<E>(trees: seq<Tree<E>>, actions: seq<Action<E>>, i: nat)
    requires IsRun(trees, actions) && i < |trees|
    ensures |trees[i]| > 0 && trees[i][0].received == PublishedOf(actions[..i])
  {
    hide Step, Invariant;
    if i > 0 {
      RootReceivesPublished(trees, actions, i - 1);
      RunKeepsInvariant(trees, actions, i - 1);
      RootStep(trees[i - 1], actions[i - 1]);
      assert actions[..i][..i - 1] == actions[..i - 1];
    }
  }

  /**
   * In every run, what any subscriber at any depth has emitted is a
   * contiguous run of the events published on the bus, from a fixed first
   * one, in order, each once; and when it is settled, emitted and buffered
   * events reach to the last one published.
   */
  lemma {:induction false} SubscriberSeesSegment<E>(trees: seq<Tree<E>>, actions: seq<Action<E>>, i: nat, n: nat)
    requires IsRun(trees, actions) && i < |trees| && 0 < n < |trees[i]|
    ensures Invariant(trees[i])
    ensures var t, from, published := trees[i], Origin(trees[i], n), PublishedOf(actions[..i]);
            && from + |t[n].emitted| <= |published|
            && t[n].emitted == published[from..from + |t[n].emitted|]
            && (Settled(t, n) ==> t[n].emitted + t[n].evbuf == published[from..])
  {
    RunKeepsInvariant(trees, actions, i);
    RootReceivesPublished(trees, actions, i);
    var t := trees[i];
    StreamIsSegment(t, n);
    assert NodeOk(t, n);
    EmittedIsPrefix(t[n], t[0].received, Origin(t, n));
  }

  lemma EmittedIsPrefix<E>(n: Node<E>, all: seq<E>, from: nat)
    requires n.parent.Some? && Balanced(n) && from <= |all| && Stream(n) <= all[from..]
    ensures from + |n.emitted| <= |all| && n.emitted == all[from..from + |n.emitted|]
  {
    assert n.emitted == Stream(n)[..|n.emitted|];
    assert Stream(n) == all[from..][..|Stream(n)|];
    assert all[from..][..|n.emitted|] == all[from..from + |n.emitted|];
  }

  /** The first event of a stream is fixed when the subscriber is made. */
  lemma {:induction false} OriginFixed<E>(t: Tree<E>, u: Tree<E>, n: nat)
    requires Invariant(t) && Invariant(u) && Continues(t, u) && n < |t|
    ensures Origin(u, n) == Origin(t, n)
  {
    if n > 0 {
      assert NodeOk(t, n) && NodeOk(u, n);
      OriginFixed(t, u, t[n].parent.value);
    }
  }

  /** So in every run a subscriber's stream keeps its first event. */
  lemma {:induction false} RunOriginFixed<E>(trees: seq<Tree<E>>, actions: seq<Action<E>>, i: nat, j: nat, n: nat)
    requires IsRun(trees, actions) && i <= j < |trees| && n < |trees[i]|
    ensures Invariant(trees[i]) && Invariant(trees[j]) && n < |trees[j]|
    ensures Origin(trees[j], n) == Origin(trees[i], n)
  {
    RunKeepsInvariant(trees, actions, i);
    RunKeepsInvariant(trees, actions, j);
    RunContinues(trees, actions, i, j);
    OriginFixed(trees[i], trees[j], n);
  }

  // ---------------------------------------------------------------- one goroutine's own fields

  class Loop<E> {
    const parent: Option<nat>
    var evbuf: seq<E>
    var subscriptions: set<nat>
    var phase: Phase<E>
    ghost var emitted: seq<E>
    ghost var received: seq<E>
    ghost const inherited: seq<E>
    ghost const start: nat
    ghost const offset: nat

    ghost function View(): Node<E>
      reads this
    {
      Node(parent, evbuf, subscriptions, phase, emitted, received, inherited, start, offset)
    }

    constructor Root()
      ensures View() == NewBus()
    {
      parent, evbuf, subscriptions, phase := None, [], {}, Idle;
      emitted, received, inherited, start, offset := [], [], [], 0, 0;
    }

    /** The buffer is copied, so that the two nodes share nothing. */
    constructor Clone(of: Loop<E>, id: nat)
      ensures View() == NewSubscriber(of.View(), id)
    {
      parent, evbuf, subscriptions, phase := Some(id), of.evbuf, {}, Idle;
      emitted, received, inherited, start := [], [], of.evbuf, |of.received|;
      offset := if of.parent.None? then |of.received| else |of.emitted|;
    }

    method OnSubscribe(id: nat, sub: nat) returns (clone: Loop<E>)
      requires phase.Idle?
      modifies this`subscriptions
      ensures fresh(clone) && clone.View() == NewSubscriber(old(View()), id)
      ensures View() == old(View()).(subs := old(subscriptions) + {sub})
    {
      clone := new Loop.Clone(this, id);
      subscriptions := subscriptions + {sub};
    }

    method OnEmit() returns (event: E)
      requires phase.Idle? && parent.Some? && evbuf != []
      modifies this`evbuf, this`emitted
      ensures View() == EmitFirst(old(View())) && event == old(evbuf)[0]
    {
      event := evbuf[0];
      emitted := emitted + [event];
      evbuf := evbuf[1..];
    }

    method OnPublish(event: E)
      requires phase.Idle?
      modifies this`evbuf, this`phase, this`received
      ensures View() == Take(old(View()), event)
    {
      if parent.Some? {
        evbuf := evbuf + [event];
      }
      received := received + [event];
      phase := Delivering(event, subscriptions);
    }

    /** One round of the loop over the subscriptions; whether or not the subscriber still ran. */
    method HandOver(sub: nat)
      requires Owed(View(), sub)
      modifies this`phase
      ensures View() == HandedTo(old(View()), sub)
    {
      phase := Delivering(phase.event, phase.todo - {sub});
    }

    method OnUnsubscribe(sub: nat)
      requires phase.Idle? || phase.Closing?
      modifies this`subscriptions
      ensures View() == old(View()).(subs := old(subscriptions) - {sub})
    {
      subscriptions := subscriptions - {sub};
    }
  }
}
