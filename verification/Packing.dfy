/**
 * The first-fit packer of provider/cluster/inventory.go as a function on
 * amounts, with an independent notion of placement to judge it by.
 */
module Packing {
  import opened ResourceTypes

  datatype Demand = Demand(units: Vec, count: nat)

  // ---------------------------------------------------------------- the packer

  /** Put as many replicas of `d` on one node as fit: what is left of both. */
  function Place(avail: Vec, d: Demand): (Vec, Demand)
    decreases d.count
  {
    if d.count > 0 && Leq(d.units, avail) then
      Place(Minus(avail, d.units), d.(count := d.count - 1))
    else (avail, d)
  }

  /** Fill one node from the list in order, dropping satisfied demands. */
  function PackNode(avail: Vec, ds: seq<Demand>): (Vec, seq<Demand>)
    decreases |ds|
  {
    if ds == [] then (avail, [])
    else
      var (a, d) := Place(avail, ds[0]);
      var (b, rest) := PackNode(a, ds[1..]);
      (b, (if d.count > 0 then [d] else []) + rest)
  }

  /** Fill the nodes in order, each with what the earlier ones left over. */
  function PackAll(avails: seq<Vec>, ds: seq<Demand>): (seq<Vec>, seq<Demand>)
    decreases |avails|
  {
    if avails == [] then ([], ds)
    else
      var (a, left) := PackNode(avails[0], ds);
      var (bs, rest) := PackAll(avails[1..], left);
      ([a] + bs, rest)
  }

  /** Pack one request after the other; stop at the first that does not fit. */
  predicate PackEach(avails: seq<Vec>, requests: seq<seq<Demand>>)
    decreases |requests|
  {
    requests == [] ||
    var (bs, left) := PackAll(avails, requests[0]);
    left == [] && PackEach(bs, requests[1..])
  }

  // ---------------------------------------------------------------- placements

  function Copies(v: Vec, n: nat): multiset<Vec> {
    multiset{}[v := n]
  }

  /** Every single replica that is asked for. */
  function Replicas(ds: seq<Demand>): multiset<Vec> {
    if ds == [] then multiset{}
    else Copies(ds[0].units, ds[0].count) + Replicas(ds[1..])
  }

  function JointReplicas(requests: seq<seq<Demand>>): multiset<Vec> {
    if requests == [] then multiset{}
    else Replicas(requests[0]) + JointReplicas(requests[1..])
  }

  function Load(row: seq<Vec>): Vec {
    if row == [] then Vec(0, 0, 0) else Plus(row[0], Load(row[1..]))
  }

  function Tally(rows: seq<seq<Vec>>): multiset<Vec> {
    if rows == [] then multiset{} else multiset(rows[0]) + Tally(rows[1..])
  }

  /** `rows[i]` lists the replicas put on node `i`: every replica is put somewhere and no node is overloaded. */
  ghost predicate IsPlacement(avails: seq<Vec>, rows: seq<seq<Vec>>, replicas: multiset<Vec>) {
    && |rows| == |avails|
    && (forall i :: 0 <= i < |rows| ==> Leq(Load(rows[i]), avails[i]))
    && Tally(rows) == replicas
  }

  ghost predicate Placeable(avails: seq<Vec>, replicas: multiset<Vec>) {
    exists rows :: IsPlacement(avails, rows, replicas)
  }

  /** `rows` is exactly what turned `before` into `after`. */
  ghost predicate Accounts(before: seq<Vec>, rows: seq<seq<Vec>>, after: seq<Vec>) {
    && |rows| == |before| == |after|
    && forall i :: 0 <= i < |rows| ==> Plus(Load(rows[i]), after[i]) == before[i]
  }

  // ---------------------------------------------------------------- soundness

  lemma {:induction false} LoadConcat(a: seq<Vec>, b: seq<Vec>)
    ensures Load(a + b) == Plus(Load(a), Load(b))
  {
    if a == [] {
      assert a + b == b;
    } else {
      assert (a + b)[1..] == a[1..] + b;
      LoadConcat(a[1..], b);
    }
  }

  lemma Regroup(a: multiset<Vec>, b: multiset<Vec>, c: multiset<Vec>, d: multiset<Vec>)
    ensures (a + b) + (c + d) == (a + c) + (b + d)
  {
  }

  lemma {:induction false} LoadCons(v: Vec, row: seq<Vec>)
    ensures Load([v] + row) == Plus(v, Load(row))
    ensures multiset([v] + row) == multiset{v} + multiset(row)
  {
    assert ([v] + row)[1..] == row;
  }

  lemma {:induction false} ReplicasCons(d: Demand, ds: seq<Demand>)
    ensures Replicas((if d.count > 0 then [d] else []) + ds) == Copies(d.units, d.count) + Replicas(ds)
  {
    if d.count > 0 {
      assert ([d] + ds)[1..] == ds;
    } else {
      assert [] + ds == ds;
    }
  }

  lemma {:induction false} PlaceAccounts(avail: Vec, d: Demand) returns (row: seq<Vec>)
    ensures Plus(Load(row), Place(avail, d).0) == avail
    ensures Place(avail, d).1.units == d.units
    ensures multiset(row) + Copies(d.units, Place(avail, d).1.count) == Copies(d.units, d.count)
    decreases d.count
  {
    if d.count > 0 && Leq(d.units, avail) {
      var rest := PlaceAccounts(Minus(avail, d.units), d.(count := d.count - 1));
      row := [d.units] + rest;
      LoadCons(d.units, rest);
      assert Copies(d.units, d.count) == multiset{d.units} + Copies(d.units, d.count - 1);
    } else {
      row := [];
    }
  }

  lemma {:induction false} PackNodeAccounts(avail: Vec, ds: seq<Demand>) returns (row: seq<Vec>)
    ensures Plus(Load(row), PackNode(avail, ds).0) == avail
    ensures multiset(row) + Replicas(PackNode(avail, ds).1) == Replicas(ds)
    decreases |ds|
  {
    if ds == [] {
      row := [];
    } else {
      var (a, d) := Place(avail, ds[0]);
      var (b, rest) := PackNode(a, ds[1..]);
      var first := PlaceAccounts(avail, ds[0]);
      var others := PackNodeAccounts(a, ds[1..]);
      row := first + others;
      LoadConcat(first, others);
      ReplicasCons(d, rest);
      Regroup(multiset(first), multiset(others), Copies(d.units, d.count), Replicas(rest));
    }
  }

  /** Packing conserves: what a node lost is the load of what it was given, and every replica is either placed or left over. */
  lemma {:induction false} PackAllAccounts(avails: seq<Vec>, ds: seq<Demand>) returns (rows: seq<seq<Vec>>)
    ensures Accounts(avails, rows, PackAll(avails, ds).0)
    ensures Tally(rows) + Replicas(PackAll(avails, ds).1) == Replicas(ds)
    decreases |avails|
  {
    if avails == [] {
      rows := [];
    } else {
      var (a, left) := PackNode(avails[0], ds);
      var row := PackNodeAccounts(avails[0], ds);
      var others := PackAllAccounts(avails[1..], left);
      rows := [row] + others;
      assert rows[1..] == others;
    }
  }

  function Zip(a: seq<seq<Vec>>, b: seq<seq<Vec>>): (r: seq<seq<Vec>>)
    requires |a| == |b|
    ensures |r| == |a| && forall i :: 0 <= i < |a| ==> r[i] == a[i] + b[i]
  {
    if a == [] then [] else [a[0] + b[0]] + Zip(a[1..], b[1..])
  }

  lemma {:induction false} TallyZip(a: seq<seq<Vec>>, b: seq<seq<Vec>>)
    requires |a| == |b|
    ensures Tally(Zip(a, b)) == Tally(a) + Tally(b)
  {
    if a != [] {
      TallyZip(a[1..], b[1..]);
      assert Zip(a, b)[1..] == Zip(a[1..], b[1..]);
    }
  }

  lemma {:induction false} TallyEmpty(n: nat) returns (rows: seq<seq<Vec>>)
    ensures |rows| == n && Tally(rows) == multiset{} && forall i :: 0 <= i < n ==> rows[i] == []
  {
    if n == 0 {
      rows := [];
    } else {
      var rest := TallyEmpty(n - 1);
      rows := [[]] + rest;
      assert rows[1..] == rest;
    }
  }

  /** Requests packed one after the other have a joint placement on the nodes as they were at the start. */
  lemma {:induction false} PackEachSound(avails: seq<Vec>, requests: seq<seq<Demand>>) returns (rows: seq<seq<Vec>>)
    requires PackEach(avails, requests)
    ensures IsPlacement(avails, rows, JointReplicas(requests))
    decreases |requests|
  {
    if requests == [] {
      rows := TallyEmpty(|avails|);
    } else {
      var (bs, left) := PackAll(avails, requests[0]);
      var first := PackAllAccounts(avails, requests[0]);
      var rest := PackEachSound(bs, requests[1..]);
      rows := Zip(first, rest);
      TallyZip(first, rest);
      forall i | 0 <= i < |rows| ensures Leq(Load(rows[i]), avails[i]) {
        LoadConcat(first[i], rest[i]);
      }
    }
  }

  // ---------------------------------------------------------------- conservation

  function Weight(ds: seq<Demand>): Vec {
    if ds == [] then Vec(0, 0, 0) else Plus(Scale(ds[0].count, ds[0].units), Weight(ds[1..]))
  }

  lemma ScaleStep(n: nat, v: Vec)
    ensures Scale(n + 1, v) == Plus(Scale(n, v), v)
  {
  }

  lemma {:induction false} PlaceWeight(avail: Vec, d: Demand)
    ensures Place(avail, d).1.units == d.units
    ensures var (a, l) := Place(avail, d);
            Plus(avail, Scale(l.count, d.units)) == Plus(a, Scale(d.count, d.units))
    decreases d.count
  {
    if d.count > 0 && Leq(d.units, avail) {
      PlaceWeight(Minus(avail, d.units), d.(count := d.count - 1));
      ScaleStep(d.count - 1, d.units);
    }
  }

  lemma {:induction false} WeightCons(d: Demand, ds: seq<Demand>)
    ensures Weight((if d.count > 0 then [d] else []) + ds) == Plus(Scale(d.count, d.units), Weight(ds))
  {
    if d.count > 0 {
      assert ([d] + ds)[1..] == ds;
    } else {
      assert [] + ds == ds;
    }
  }

  /** Two balances in a row are one. */
  lemma Balance(a: Vec, x: Vec, b: Vec, y: Vec, c: Vec, z: Vec, w: Vec)
    requires Plus(a, x) == Plus(b, y)
    requires Plus(b, z) == Plus(c, w)
    ensures Plus(a, Plus(x, z)) == Plus(c, Plus(y, w))
  {
  }

  lemma Transfer(v: Vec, tail: Vec, rest: Vec, bs: Vec, left: Vec, a: Vec, ds: Vec)
    requires Plus(v, left) == Plus(a, ds)
    requires Plus(tail, rest) == Plus(bs, left)
    ensures Plus(Plus(v, tail), rest) == Plus(Plus(a, bs), ds)
  {
  }

  lemma {:induction false} PackNodeWeight(avail: Vec, ds: seq<Demand>)
    ensures var (a, left) := PackNode(avail, ds);
            Plus(avail, Weight(left)) == Plus(a, Weight(ds))
    decreases |ds|
  {
    if ds != [] {
      var (a, d) := Place(avail, ds[0]);
      var (b, rest) := PackNode(a, ds[1..]);
      PlaceWeight(avail, ds[0]);
      PackNodeWeight(a, ds[1..]);
      WeightCons(d, rest);
      Balance(avail, Scale(d.count, d.units), a, Scale(ds[0].count, ds[0].units), b, Weight(rest), Weight(ds[1..]));
    }
  }

  /**
   * Per kind, the drop in total availability is the sum over the demands of
   * (original count - leftover count) * units.
   */
  lemma {:induction false} PackAllWeight(avails: seq<Vec>, ds: seq<Demand>)
    ensures var (bs, left) := PackAll(avails, ds);
            Plus(Load(avails), Weight(left)) == Plus(Load(bs), Weight(ds))
    decreases |avails|
  {
    if avails != [] {
      var (a, left) := PackNode(avails[0], ds);
      var (bs, rest) := PackAll(avails[1..], left);
      PackNodeWeight(avails[0], ds);
      PackAllWeight(avails[1..], left);
      LoadCons(a, bs);
      Transfer(avails[0], Load(avails[1..]), Weight(rest), Load(bs), Weight(left), a, Weight(ds));
    }
  }

  // ---------------------------------------------------------------- what a refusal means

  lemma {:induction false} PlaceStops(avail: Vec, d: Demand)
    ensures var (a, l) := Place(avail, d);
            l.units == d.units && Leq(a, avail) && (l.count > 0 ==> !Leq(d.units, a))
    decreases d.count
  {
    if d.count > 0 && Leq(d.units, avail) {
      PlaceStops(Minus(avail, d.units), d.(count := d.count - 1));
    }
  }

  lemma {:induction false} PackNodeStops(avail: Vec, ds: seq<Demand>)
    ensures Leq(PackNode(avail, ds).0, avail)
    ensures forall d :: d in PackNode(avail, ds).1 ==>
              && d.count > 0
              && !Leq(d.units, PackNode(avail, ds).0)
              && exists e :: e in ds && e.units == d.units
    decreases |ds|
  {
    if ds != [] {
      var (a, l) := Place(avail, ds[0]);
      var (b, rest) := PackNode(a, ds[1..]);
      PlaceStops(avail, ds[0]);
      PackNodeStops(a, ds[1..]);
      forall d | d in PackNode(avail, ds).1
        ensures d.count > 0 && !Leq(d.units, b) && exists e :: e in ds && e.units == d.units
      {
        if d in rest {
          var e :| e in ds[1..] && e.units == d.units;
          assert e in ds;
        } else {
          assert d == l && ds[0] in ds;
        }
      }
    }
  }

  /** `d` is too big for what remains of every node. */
  predicate FitsNowhere(d: Demand, avails: seq<Vec>) {
    forall i :: 0 <= i < |avails| ==> !Leq(d.units, avails[i])
  }

  /** Whatever packing leaves over is part of the request and fits in what remains of no node. */
  lemma {:induction false} PackAllStops(avails: seq<Vec>, ds: seq<Demand>, d: Demand)
    requires d in PackAll(avails, ds).1
    ensures FitsNowhere(d, PackAll(avails, ds).0)
    ensures exists e :: e in ds && e.units == d.units
    ensures avails != [] ==> d.count > 0
    decreases |avails|
  {
    if avails == [] {
      assert d in ds;
    } else {
      var (a, left) := PackNode(avails[0], ds);
      var (bs, rest) := PackAll(avails[1..], left);
      PackNodeStops(avails[0], ds);
      PackAllStops(avails[1..], left, d);
      assert exists e :: e in left && e.units == d.units;
      assert avails[1..] == [] ==> d in left;
    }
  }

  // ---------------------------------------------------------------- removal

  lemma {:induction false} RemoveFromRow(row: seq<Vec>, v: Vec) returns (less: seq<Vec>)
    requires v in row
    ensures multiset(less) == multiset(row) - multiset{v}
    ensures Leq(Load(less), Load(row))
  {
    assert row == [row[0]] + row[1..];
    if row[0] == v {
      less := row[1..];
    } else {
      var rest := RemoveFromRow(row[1..], v);
      less := [row[0]] + rest;
      assert less[1..] == rest;
      assert multiset(row) == multiset{row[0]} + multiset(row[1..]);
    }
  }

  lemma {:induction false} TallyCons(row: seq<Vec>, rows: seq<seq<Vec>>)
    ensures Tally([row] + rows) == multiset(row) + Tally(rows)
  {
    assert ([row] + rows)[1..] == rows;
  }

  lemma TakeOut(m: multiset<Vec>, t: multiset<Vec>, v: Vec)
    requires v in m
    ensures (m - multiset{v}) + t == (m + t) - multiset{v} == t + (m - multiset{v})
  {
  }

  ghost predicate Lighter(less: seq<seq<Vec>>, rows: seq<seq<Vec>>) {
    |less| == |rows| && forall i :: 0 <= i < |rows| ==> Leq(Load(less[i]), Load(rows[i]))
  }

  lemma {:induction false} LighterCons(a: seq<Vec>, less: seq<seq<Vec>>, rows: seq<seq<Vec>>)
    requires rows != [] && Leq(Load(a), Load(rows[0])) && Lighter(less, rows[1..])
    ensures Lighter([a] + less, rows)
  {
    forall i | 0 <= i < |rows| ensures Leq(Load(([a] + less)[i]), Load(rows[i])) {
      if i > 0 {
        assert Leq(Load(less[i - 1]), Load(rows[1..][i - 1]));
      }
    }
  }

  lemma {:induction false} RemoveReplica(rows: seq<seq<Vec>>, v: Vec) returns (less: seq<seq<Vec>>)
    requires v in Tally(rows)
    ensures Tally(less) == Tally(rows) - multiset{v}
    ensures Lighter(less, rows)
  {
    var row, tail := rows[0], rows[1..];
    if v in row {
      row := RemoveFromRow(row, v);
      TakeOut(multiset(rows[0]), Tally(tail), v);
    } else {
      assert v !in multiset(row);
      tail := RemoveReplica(tail, v);
      TakeOut(Tally(rows[1..]), multiset(row), v);
    }
    less := [row] + tail;
    TallyCons(row, tail);
    LighterCons(row, tail, rows);
  }

  /** Any part of a placeable set of replicas is placeable. */
  lemma {:induction false} PlaceableShrinks(avails: seq<Vec>, more: multiset<Vec>, fewer: multiset<Vec>)
    requires Placeable(avails, more)
    requires fewer <= more
    ensures Placeable(avails, fewer)
    decreases |more|
  {
    if fewer != more {
      var v :| v in more && fewer[v] < more[v];
      var rows :| IsPlacement(avails, rows, more);
      var less := RemoveReplica(rows, v);
      assert IsPlacement(avails, less, more - multiset{v});
      PlaceableShrinks(avails, more - multiset{v}, fewer);
    }
  }

  // ---------------------------------------------------------------- what first-fit does not promise

  /** First-fit may refuse a request that has a placement: a small replica listed first spoils the big node. */
  lemma FirstFitIncomplete(small: Vec, big: Vec)
    requires small.cpu > 0 && Leq(small, big) && !Leq(big, small)
    ensures var ds := [Demand(small, 1), Demand(big, 1)];
            !PackEach([big, small], [ds]) && Placeable([big, small], JointReplicas([ds]))
  {
    FirstFitRefuses(small, big);
    CrossedPlacement(small, big);
  }

  lemma LoadOne(v: Vec)
    ensures Load([v]) == v
  {
    assert |[v][1..]| == 0;
  }

  lemma TallyTwo(v: Vec, w: Vec)
    ensures Tally([[v], [w]]) == multiset{v, w}
  {
    TallyCons([w], []);
    assert [[w]] + [] == [[w]] && [[v]] + [[w]] == [[v], [w]];
    TallyCons([v], [[w]]);
  }

  lemma ReplicasTwo(v: Vec, w: Vec)
    ensures JointReplicas([[Demand(v, 1), Demand(w, 1)]]) == multiset{v, w}
  {
    var ds := [Demand(v, 1), Demand(w, 1)];
    assert ds[1..] == [Demand(w, 1)] && [Demand(w, 1)][1..] == [];
    assert Replicas(ds[1..]) == Copies(w, 1);
  }

  lemma CrossedPlacement(small: Vec, big: Vec)
    ensures Placeable([big, small], JointReplicas([[Demand(small, 1), Demand(big, 1)]]))
  {
    TallyTwo(big, small);
    ReplicasTwo(small, big);
    LoadOne(big);
    LoadOne(small);
    assert multiset{small, big} == multiset{big, small};
    assert IsPlacement([big, small], [[big], [small]], JointReplicas([[Demand(small, 1), Demand(big, 1)]]));
  }

  lemma FirstFitRefuses(small: Vec, big: Vec)
    requires small.cpu > 0 && Leq(small, big) && !Leq(big, small)
    ensures PackAll([big, small], [Demand(small, 1), Demand(big, 1)]).1 == [Demand(big, 1)]
  {
    var s, b := Demand(small, 1), Demand(big, 1);
    var less := Minus(big, small);
    assert Place(big, s) == Place(less, Demand(small, 0)) == (less, Demand(small, 0));
    assert Place(less, b) == (less, b) && Place(small, b) == (small, b);
    assert [s, b][1..] == [b] && [b][1..] == [] && [b] + [] == [b] && [] + [b] == [b];
    assert PackNode(less, [b]) == (less, [b]) && PackNode(small, [b]) == (small, [b]);
    assert PackNode(big, [s, b]) == (less, [b]);
    PackAllTwo(big, small, [s, b]);
  }

  /**
   * Withdrawing a request can make first-fit refuse the ones that remain:
   * the middle request moves to the node the last one needs.
   */
  lemma FirstFitNotMonotone()
    ensures var avails := [Vec(5, 1, 1), Vec(4, 1, 0)];
            var r1, r2, r3 := [Demand(Vec(2, 0, 0), 1)], [Demand(Vec(4, 1, 0), 1)], [Demand(Vec(3, 1, 1), 1)];
            PackEach(avails, [r1, r2, r3]) && !PackEach(avails, [r2, r3])
  {
    var a, b := Vec(5, 1, 1), Vec(4, 1, 0);
    var d1, d2, d3 := Demand(Vec(2, 0, 0), 1), Demand(Vec(4, 1, 0), 1), Demand(Vec(3, 1, 1), 1);
    var a1, a2 := Vec(3, 1, 1), Vec(1, 0, 1);
    var z, zb := Vec(0, 0, 0), Vec(4, 1, 0);
    PackOneFirst(a, b, d1, a1);
    PackOneSecond(a1, b, d2, z);
    PackOneFirst(a1, z, d3, z);
    PackOneFirst(a, b, d2, a2);
    assert [[d1], [d2], [d3]][1..] == [[d2], [d3]] && [[d2], [d3]][1..] == [[d3]] && [[d3]][1..] == [];
    assert PackEach([z, z], []);
    assert PackEach([a1, z], [[d3]]);
    assert PackEach([a1, b], [[d2], [d3]]);
    assert PackEach([a, b], [[d1], [d2], [d3]]);
    PackOneNowhere(a2, b, d3);
    assert !PackEach([a2, b], [[d3]]);
  }

  lemma {:induction false} PackNodeOne(a: Vec, d: Demand)
    ensures PackNode(a, [d]) == (Place(a, d).0, if Place(a, d).1.count > 0 then [Place(a, d).1] else [])
  {
    var (x, l) := Place(a, d);
    var tail := [d][1..];
    assert tail == [] && PackNode(x, tail) == (x, []);
    assert (if l.count > 0 then [l] else []) + [] == if l.count > 0 then [l] else [];
  }

  lemma PackOneFirst(a: Vec, b: Vec, d: Demand, rest: Vec)
    requires d.count == 1 && Leq(d.units, a) && rest == Minus(a, d.units)
    ensures PackAll([a, b], [d]) == ([rest, b], [])
  {
    var none := d.(count := 0);
    assert Place(rest, none) == (rest, none) && Place(a, d) == (rest, none);
    PackNodeOne(a, d);
    PackAllTwo(a, b, [d]);
  }

  lemma PackOneSecond(a: Vec, b: Vec, d: Demand, rest: Vec)
    requires d.count == 1 && !Leq(d.units, a) && Leq(d.units, b) && rest == Minus(b, d.units)
    ensures PackAll([a, b], [d]) == ([a, rest], [])
  {
    var none := d.(count := 0);
    assert Place(rest, none) == (rest, none) && Place(b, d) == (rest, none);
    PackNodeOne(a, d);
    PackNodeOne(b, d);
    PackAllTwo(a, b, [d]);
  }

  lemma PackOneNowhere(a: Vec, b: Vec, d: Demand)
    requires d.count == 1 && !Leq(d.units, a) && !Leq(d.units, b)
    ensures PackAll([a, b], [d]).1 == [d]
  {
    PackNodeOne(a, d);
    PackNodeOne(b, d);
    PackAllTwo(a, b, [d]);
  }

  lemma {:induction false} PackAllTwo(a: Vec, b: Vec, ds: seq<Demand>)
    ensures var (x, l) := PackNode(a, ds); var (y, m) := PackNode(b, l);
            PackAll([a, b], ds) == ([x, y], m)
  {
    var (x, l) := PackNode(a, ds);
    var (y, m) := PackNode(b, l);
    assert [a, b][1..] == [b] && [b][1..] == [] && [y] + [] == [y] && [x] + [y] == [x, y];
    assert PackAll([b], l) == ([y], m);
  }
}
