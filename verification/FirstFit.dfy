/**
 * When the first-fit packer of provider/cluster/inventory.go finds a
 * placement whenever there is one: an exact condition on the units asked for.
 */
module FirstFit {
  import opened ResourceTypes
  import opened Packing
  import opened Permutations

  // ---------------------------------------------------------------- whole multiples

  /** In every kind that `w` needs, `v` is `k` times `w`. */
  predicate Matches(v: Vec, k: nat, w: Vec) {
    && (w.cpu > 0 ==> v.cpu == k * w.cpu)
    && (w.memory > 0 ==> v.memory == k * w.memory)
    && (w.storage > 0 ==> v.storage == k * w.storage)
  }

  /** In the kinds that `w` needs, `v` is a whole multiple of `w`; none at all counts. */
  ghost predicate Tiles(v: Vec, w: Vec) {
    exists k: nat :: Matches(v, k, w)
  }

  /** Every demand is a whole multiple of each later one, in the kinds the later one needs. */
  ghost predicate Tame(ds: seq<Demand>) {
    forall i, j :: 0 <= i < j < |ds| ==> Tiles(ds[i].units, ds[j].units)
  }

  lemma TilesSelf(v: Vec)
    ensures Tiles(v, v)
  {
    assert Matches(v, 1, v);
  }

  lemma NothingTiled(v: Vec)
    ensures Tiles(v, Vec(0, 0, 0))
  {
    assert Matches(v, 0, Vec(0, 0, 0));
  }

  lemma LessMultiple(a: nat, b: nat, y: nat)
    requires y > 0 && a * y <= b * y
    ensures a <= b
  {
  }

  lemma MultipleMinus(a: nat, b: nat, y: nat)
    requires b <= a
    ensures (a - b) * y == a * y - b * y
  {
  }

  lemma TilesMinus(v: Vec, x: Vec, w: Vec)
    requires Leq(x, v) && Tiles(v, w) && Tiles(x, w)
    ensures Tiles(Minus(v, x), w)
  {
    var a: nat, b: nat :| Matches(v, a, w) && Matches(x, b, w);
    if w.cpu > 0 {
      LessMultiple(b, a, w.cpu);
    } else if w.memory > 0 {
      LessMultiple(b, a, w.memory);
    } else if w.storage > 0 {
      LessMultiple(b, a, w.storage);
    }
    if b <= a {
      MultipleMinus(a, b, w.cpu);
      MultipleMinus(a, b, w.memory);
      MultipleMinus(a, b, w.storage);
      assert Matches(Minus(v, x), a - b, w);
    } else {
      assert Matches(Minus(v, x), 0, w);
    }
  }

  lemma AtLeastOnce(k: nat, y: nat)
    requires k > 0
    ensures k * y >= y
  {
  }

  /** Nothing is left of any kind that `w` needs. */
  predicate Spent(a: Vec, w: Vec) {
    (w.cpu > 0 ==> a.cpu == 0) && (w.memory > 0 ==> a.memory == 0) && (w.storage > 0 ==> a.storage == 0)
  }

  lemma TooSmallIsSpent(a: Vec, w: Vec)
    requires Tiles(a, w) && !Leq(w, a)
    ensures Spent(a, w)
  {
    var k: nat :| Matches(a, k, w);
    if k > 0 {
      AtLeastOnce(k, w.cpu);
      AtLeastOnce(k, w.memory);
      AtLeastOnce(k, w.storage);
    }
  }

  // ---------------------------------------------------------------- filling a node that every demand tiles

  lemma {:induction false} PlaceTiles(cap: Vec, d: Demand, w: Vec)
    requires Tiles(cap, w) && Tiles(d.units, w)
    ensures Tiles(Place(cap, d).0, w)
    decreases d.count
  {
    if d.count > 0 && Leq(d.units, cap) {
      TilesMinus(cap, d.units, w);
      PlaceTiles(Minus(cap, d.units), d.(count := d.count - 1), w);
    }
  }

  /** What does not fit has used up all it could have had. */
  lemma {:induction false} PackNodeSpends(cap: Vec, ds: seq<Demand>)
    requires Tame(ds) && forall d :: d in ds ==> Tiles(cap, d.units)
    ensures forall d :: d in PackNode(cap, ds).1 ==> Spent(PackNode(cap, ds).0, d.units)
    decreases |ds|
  {
    if ds != [] {
      var (a, l) := Place(cap, ds[0]);
      var (b, rest) := PackNode(a, ds[1..]);
      forall d | d in ds[1..] ensures Tiles(a, d.units) {
        PlaceTiles(cap, ds[0], d.units);
      }
      PackNodeSpends(a, ds[1..]);
      PackNodeStops(a, ds[1..]);
      PlaceStops(cap, ds[0]);
      if l.count > 0 {
        TilesSelf(l.units);
        PlaceTiles(cap, ds[0], l.units);
        TooSmallIsSpent(a, l.units);
      }
    }
  }

  // ---------------------------------------------------------------- rows as demands

  lemma {:induction false} LoadPermuted(a: seq<Vec>, b: seq<Vec>)
    requires multiset(a) == multiset(b)
    ensures Load(a) == Load(b)
    decreases |a|
  {
    if a == [] {
      assert |multiset(b)| == |b| == 0;
    } else {
      var k := MatchHead(a, b);
      var rest := b[..k] + b[k + 1..];
      LoadPermuted(a[1..], rest);
      LoadConcat(b[..k], b[k + 1..]);
      LoadConcat(b[..k], b[k..]);
      assert b == b[..k] + b[k..] && b[k..][1..] == b[k + 1..];
    }
  }

  lemma {:induction false} CopiesRow(v: Vec, n: nat) returns (row: seq<Vec>)
    ensures multiset(row) == Copies(v, n) && Load(row) == Scale(n, v)
  {
    if n == 0 {
      row := [];
    } else {
      var rest := CopiesRow(v, n - 1);
      row := [v] + rest;
      LoadCons(v, rest);
      ScaleStep(n - 1, v);
    }
  }

  /** A row holding exactly what is asked for. */
  lemma {:induction false} RowOf(ds: seq<Demand>) returns (row: seq<Vec>)
    ensures multiset(row) == Replicas(ds) && Load(row) == Weight(ds)
  {
    if ds == [] {
      row := [];
    } else {
      var first := CopiesRow(ds[0].units, ds[0].count);
      var rest := RowOf(ds[1..]);
      row := first + rest;
      LoadConcat(first, rest);
    }
  }

  /** The demands with their counts taken from `m`. */
  function Recount(ds: seq<Demand>, m: multiset<Vec>): (r: seq<Demand>)
    ensures |r| == |ds| && forall i :: 0 <= i < |ds| ==> r[i].units == ds[i].units
  {
    if ds == [] then [] else [Demand(ds[0].units, m[ds[0].units])] + Recount(ds[1..], m[ds[0].units := 0])
  }

  predicate Asked(ds: seq<Demand>, v: Vec) {
    exists i :: 0 <= i < |ds| && ds[i].units == v
  }

  lemma {:induction false} RecountReplicas(ds: seq<Demand>, m: multiset<Vec>)
    requires forall v :: v in m ==> Asked(ds, v)
    ensures Replicas(Recount(ds, m)) == m
  {
    if ds == [] {
      assert m == multiset{};
    } else {
      var u := ds[0].units;
      var rest := m[u := 0];
      forall v | v in rest ensures Asked(ds[1..], v) {
        var i :| 0 <= i < |ds| && ds[i].units == v;
        assert ds[1..][i - 1].units == v;
      }
      RecountReplicas(ds[1..], rest);
      assert Recount(ds, m)[1..] == Recount(ds[1..], rest);
      assert Copies(u, m[u]) + rest == m;
    }
  }

  // ---------------------------------------------------------------- moving replicas between nodes

  lemma Swap(a: multiset<Vec>, t: multiset<Vec>, b: multiset<Vec>)
    ensures (a + t) + b == (b + t) + a
  {
  }

  lemma Shift(m: multiset<Vec>, a: multiset<Vec>, x: multiset<Vec>, b: multiset<Vec>, y: multiset<Vec>)
    requires a + x == b + y
    ensures (m + a) + x == (m + b) + y
  {
    assert (m + a) + x == m + (a + x) && (m + b) + y == m + (b + y);
  }

  lemma {:induction false} TallyUpdate(rows: seq<seq<Vec>>, i: nat, row: seq<Vec>)
    requires i < |rows|
    ensures Tally(rows[i := row]) + multiset(rows[i]) == Tally(rows) + multiset(row)
  {
    if i == 0 {
      assert rows[0 := row][1..] == rows[1..];
      Swap(multiset(row), Tally(rows[1..]), multiset(rows[0]));
    } else {
      assert rows[i := row][1..] == rows[1..][i - 1 := row];
      TallyUpdate(rows[1..], i - 1, row);
      Shift(multiset(rows[0]), Tally(rows[i := row][1..]), multiset(rows[i]), Tally(rows[1..]), multiset(row));
    }
  }

  lemma {:induction false} InSomeRow(rows: seq<seq<Vec>>, v: Vec) returns (j: nat)
    requires v in Tally(rows)
    ensures j < |rows| && v in rows[j]
  {
    if v in rows[0] {
      j := 0;
    } else {
      assert v !in multiset(rows[0]);
      var k := InSomeRow(rows[1..], v);
      j := k + 1;
    }
  }

  lemma {:induction false} RowInTally(rows: seq<seq<Vec>>, i: nat)
    requires i < |rows|
    ensures multiset(rows[i]) <= Tally(rows)
  {
    if i > 0 {
      RowInTally(rows[1..], i - 1);
    }
  }

  lemma {:induction false} LoadCoversEach(row: seq<Vec>, v: Vec)
    requires v in row
    ensures Leq(v, Load(row))
  {
    if row[0] != v {
      assert v in row[1..];
      LoadCoversEach(row[1..], v);
    }
  }

  /** A row without one of its replicas is lighter by exactly that. */
  lemma TakeFromRow(row: seq<Vec>, v: Vec) returns (less: seq<Vec>)
    requires v in row
    ensures multiset(row) == multiset{v} + multiset(less) && Load(row) == Plus(v, Load(less))
  {
    less := RemoveFromRow(row, v);
    LoadCons(v, less);
    LoadPermuted(row, [v] + less);
  }

  /** Demands that ask for no kind that is still there weigh nothing in it. */
  lemma {:induction false} SpentWeight(left: seq<Demand>, cap: Vec)
    requires forall d :: d in left ==> Spent(cap, d.units)
    ensures Spent(cap, Weight(left))
  {
    if left != [] {
      assert left[0] in left;
      SpentWeight(left[1..], cap);
      var d := left[0];
      assert d.units.cpu == 0 ==> d.count * d.units.cpu == 0;
      assert d.units.memory == 0 ==> d.count * d.units.memory == 0;
      assert d.units.storage == 0 ==> d.count * d.units.storage == 0;
    }
  }

  /** A row split in two: one part goes where `u` was, the other leaves room for `u`. */
  lemma MakeRoom(row: seq<Vec>, a: Vec, u: Vec, ds: seq<Demand>) returns (out: seq<Vec>, stay: seq<Vec>)
    requires Leq(Load(row), a) && Leq(u, a)
    requires Tame(ds) && (forall d :: d in ds ==> Tiles(u, d.units)) && forall v :: v in row ==> Asked(ds, v)
    ensures multiset(out) + multiset(stay) == multiset(row)
    ensures Leq(Load(out), u) && Leq(Load(stay), Minus(a, u))
  {
    var demands := Recount(ds, multiset(row));
    RecountReplicas(ds, multiset(row));
    var (cap, left) := PackNode(u, demands);
    out := PackNodeAccounts(u, demands);
    stay := RowOf(left);
    var whole := RowOf(demands);
    LoadPermuted(whole, row);
    PackNodeWeight(u, demands);
    PackNodeSpends(u, demands);
    SpentWeight(left, cap);
  }

  lemma TakenAway(before: multiset<Vec>, after: multiset<Vec>, row: multiset<Vec>, less: multiset<Vec>, u: Vec, others: multiset<Vec>)
    requires before == multiset{u} + others && row == multiset{u} + less
    requires after + row == before + less
    ensures after == others
  {
    forall v ensures after[v] == others[v] {
      assert (after + row)[v] == (before + less)[v];
    }
  }

  lemma MovedAway(before: multiset<Vec>, half: multiset<Vec>, after: multiset<Vec>, u: Vec, others: multiset<Vec>,
                  rowI: multiset<Vec>, rowJ: multiset<Vec>, out: multiset<Vec>, stay: multiset<Vec>, less: multiset<Vec>)
    requires before == multiset{u} + others && rowJ == multiset{u} + less && rowI == out + stay
    requires half + rowI == before + stay
    requires after + rowJ == half + (less + out)
    ensures after == others
  {
    forall v ensures after[v] == others[v] {
      assert (half + rowI)[v] == (before + stay)[v];
      assert (after + rowJ)[v] == (half + (less + out))[v];
    }
  }

  lemma {:induction false} MovedFits(avails: seq<Vec>, rows: seq<seq<Vec>>, i: nat, j: nat, u: Vec, less: seq<Vec>, out: seq<Vec>, stay: seq<Vec>)
    requires |rows| == |avails| && i < |rows| && j < |rows| && i != j && Leq(u, avails[i])
    requires forall k :: 0 <= k < |rows| ==> Leq(Load(rows[k]), avails[k])
    requires Load(rows[j]) == Plus(u, Load(less)) && Leq(Load(out), u) && Leq(Load(stay), Minus(avails[i], u))
    ensures var moved, room := rows[i := stay][j := less + out], avails[i := Minus(avails[i], u)];
            forall k :: 0 <= k < |moved| ==> Leq(Load(moved[k]), room[k])
  {
    hide Load;
    LoadConcat(less, out);
  }

  /** `u` is moved from node `j` to node `i`, and what has to make room goes the other way. */
  lemma MoveTo(avails: seq<Vec>, i: nat, j: nat, u: Vec, others: multiset<Vec>, ds: seq<Demand>, rows: seq<seq<Vec>>)
    requires i < |avails| && Leq(u, avails[i]) && IsPlacement(avails, rows, multiset{u} + others)
    requires j < |rows| && i != j && u in rows[j]
    requires Tame(ds) && (forall d :: d in ds ==> Tiles(u, d.units)) && forall v :: v in rows[i] ==> Asked(ds, v)
    ensures Placeable(avails[i := Minus(avails[i], u)], others)
  {
    hide Tame, Tiles, Asked, Tally, Load, Minus;
    var less := TakeFromRow(rows[j], u);
    var out, stay := MakeRoom(rows[i], avails[i], u, ds);
    var half := rows[i := stay];
    var moved := half[j := less + out];
    TallyUpdate(rows, i, stay);
    TallyUpdate(half, j, less + out);
    MovedAway(Tally(rows), Tally(half), Tally(moved), u, others,
              multiset(rows[i]), multiset(rows[j]), multiset(out), multiset(stay), multiset(less));
    MovedFits(avails, rows, i, j, u, less, out, stay);
    assert IsPlacement(avails[i := Minus(avails[i], u)], moved, others);
  }

  /** `u` can be put on any node that has room for it without spoiling the placement of the rest. */
  lemma Exchange(avails: seq<Vec>, i: nat, u: Vec, others: multiset<Vec>, ds: seq<Demand>)
    requires i < |avails| && Leq(u, avails[i]) && Placeable(avails, multiset{u} + others)
    requires Tame(ds) && (forall d :: d in ds ==> Tiles(u, d.units))
    requires forall v :: v in others ==> Asked(ds, v) || !Leq(v, avails[i])
    ensures Placeable(avails[i := Minus(avails[i], u)], others)
  {
    hide Tame, Tiles, Tally;
    var rows :| IsPlacement(avails, rows, multiset{u} + others);
    if u in rows[i] {
      var less := TakeFromRow(rows[i], u);
      TallyUpdate(rows, i, less);
      TakenAway(Tally(rows), Tally(rows[i := less]), multiset(rows[i]), multiset(less), u, others);
      assert IsPlacement(avails[i := Minus(avails[i], u)], rows[i := less], others);
    } else {
      var j := InSomeRow(rows, u);
      RowInTally(rows, i);
      forall v | v in rows[i] ensures Asked(ds, v) {
        assert v in multiset(rows[i]) && v != u;
        assert v in others;
        LoadCoversEach(rows[i], v);
      }
      MoveTo(avails, i, j, u, others, ds, rows);
    }
  }

  // ---------------------------------------------------------------- packing keeps the rest placeable

  lemma {:induction false} ReplicasAsked(ds: seq<Demand>, v: Vec)
    requires v in Replicas(ds)
    ensures Asked(ds, v)
  {
    if ds[0].units != v {
      ReplicasAsked(ds[1..], v);
      var i :| 0 <= i < |ds[1..]| && ds[1..][i].units == v;
      assert ds[i + 1].units == v;
    }
  }

  lemma AskedConcat(a: seq<Demand>, b: seq<Demand>, v: Vec)
    requires Asked(a, v) || Asked(b, v)
    ensures Asked(a + b, v)
  {
    if Asked(a, v) {
      var i :| 0 <= i < |a| && a[i].units == v;
      assert (a + b)[i].units == v;
    } else {
      var i :| 0 <= i < |b| && b[i].units == v;
      assert (a + b)[|a| + i].units == v;
    }
  }

  /** The head tiles everything, itself included, and the tail is tame. */
  lemma TameParts(d: Demand, ds: seq<Demand>)
    requires Tame([d] + ds)
    ensures Tame(ds) && forall e :: e in [d] + ds ==> Tiles(d.units, e.units)
  {
    var all := [d] + ds;
    forall i, j | 0 <= i < j < |ds| ensures Tiles(ds[i].units, ds[j].units) {
      assert Tiles(all[i + 1].units, all[j + 1].units);
    }
    TilesSelf(d.units);
    forall e | e in all ensures Tiles(d.units, e.units) {
      var j :| 0 <= j < |all| && all[j] == e;
      assert j > 0 ==> Tiles(all[0].units, all[j].units);
    }
  }

  lemma TameCons(d: Demand, ds: seq<Demand>)
    requires Tame(ds) && forall e :: e in ds ==> Tiles(d.units, e.units)
    ensures Tame([d] + ds)
  {
    var all := [d] + ds;
    forall i, j | 0 <= i < j < |all| ensures Tiles(all[i].units, all[j].units) {
      assert all[j] == ds[j - 1];
      assert i > 0 ==> all[i] == ds[i - 1];
    }
  }

  lemma TameRecounted(d: Demand, count: nat, ds: seq<Demand>)
    requires Tame([d] + ds)
    ensures Tame([d.(count := count)] + ds)
  {
    TameParts(d, ds);
    assert forall e :: e in ds ==> e in [d] + ds;
    TameCons(d.(count := count), ds);
  }

  lemma {:induction false} PlaceKeeps(avails: seq<Vec>, i: nat, d: Demand, others: multiset<Vec>, ds: seq<Demand>)
    requires i < |avails| && Tame([d] + ds) && Placeable(avails, Copies(d.units, d.count) + others)
    requires forall v :: v in others ==> Asked(ds, v) || !Leq(v, avails[i])
    ensures var (a, l) := Place(avails[i], d);
            Placeable(avails[i := a], Copies(d.units, l.count) + others)
    decreases d.count
  {
    hide Tame, Tiles, Placeable;
    if d.count > 0 && Leq(d.units, avails[i]) {
      var u, fewer := d.units, d.(count := d.count - 1);
      var rest := Copies(u, fewer.count) + others;
      assert Copies(u, d.count) + others == multiset{u} + rest;
      TameParts(d, ds);
      TameRecounted(d, fewer.count, ds);
      forall v | v in rest ensures Asked([d] + ds, v) || !Leq(v, avails[i]) {
        if v == u {
          assert ([d] + ds)[0].units == v;
        } else if Asked(ds, v) {
          AskedConcat([d], ds, v);
        }
      }
      Exchange(avails, i, u, rest, [d] + ds);
      var less := avails[i := Minus(avails[i], u)];
      PlaceKeeps(less, i, fewer, others, ds);
      assert less[i := Place(less[i], fewer).0] == avails[i := Place(avails[i], d).0];
    } else {
      assert avails[i := avails[i]] == avails;
    }
  }

  lemma {:induction false} StillAsked(a: Vec, ds: seq<Demand>, others: multiset<Vec>, later: seq<Demand>)
    requires forall v :: v in others ==> Asked(later, v) || !Leq(v, a)
    ensures forall v :: v in Replicas(ds) + others ==> Asked(ds + later, v) || !Leq(v, a)
  {
    hide Replicas, Asked;
    forall v | v in Replicas(ds) + others ensures Asked(ds + later, v) || !Leq(v, a) {
      if v in Replicas(ds) {
        ReplicasAsked(ds, v);
      }
      if Asked(ds, v) || Asked(later, v) {
        AskedConcat(ds, later, v);
      }
    }
  }

  lemma OnlyUnplaced(a: Vec, l: Demand, others: multiset<Vec>, later: seq<Demand>)
    requires l.count > 0 ==> !Leq(l.units, a)
    requires forall v :: v in others ==> Asked(later, v) || !Leq(v, a)
    ensures forall v :: v in Copies(l.units, l.count) + others ==> Asked(later, v) || !Leq(v, a)
  {
  }

  lemma Rotate(a: multiset<Vec>, b: multiset<Vec>, c: multiset<Vec>)
    ensures (a + b) + c == a + (b + c) == b + (a + c)
  {
  }

  lemma {:induction false} PackNodeKeeps(avails: seq<Vec>, i: nat, ds: seq<Demand>, others: multiset<Vec>, later: seq<Demand>)
    requires i < |avails| && Tame(ds + later) && Placeable(avails, Replicas(ds) + others)
    requires forall v :: v in others ==> Asked(later, v) || !Leq(v, avails[i])
    ensures var (b, left) := PackNode(avails[i], ds);
            Placeable(avails[i := b], Replicas(left) + others)
    decreases |ds|
  {
    hide Tame, Placeable, Asked, Copies;
    if ds == [] {
      assert avails[i := avails[i]] == avails;
    } else {
      var d, tail := ds[0], ds[1..];
      var (a, l) := Place(avails[i], d);
      var (b, rest) := PackNode(a, tail);
      var less := avails[i := a];
      assert ds + later == [d] + (tail + later);
      TameParts(d, tail + later);
      StillAsked(avails[i], tail, others, later);
      Rotate(Copies(d.units, d.count), Replicas(tail), others);
      PlaceKeeps(avails, i, d, Replicas(tail) + others, tail + later);
      PlaceStops(avails[i], d);
      var waiting := Copies(d.units, l.count) + others;
      Rotate(Replicas(tail), Copies(d.units, l.count), others);
      OnlyUnplaced(a, l, others, later);
      PackNodeKeeps(less, i, tail, waiting, later);
      assert less[i := b] == avails[i := b];
      ReplicasCons(l, rest);
      Rotate(Copies(l.units, l.count), Replicas(rest), others);
    }
  }

  /** What a node leaves over is as tame as what it was offered. */
  lemma {:induction false} LeftIsTame(cap: Vec, ds: seq<Demand>, later: seq<Demand>)
    requires Tame(ds + later)
    ensures Tame(PackNode(cap, ds).1 + later)
    decreases |ds|
  {
    hide Tame, Tiles;
    if ds != [] {
      var (a, l) := Place(cap, ds[0]);
      var (b, rest) := PackNode(a, ds[1..]);
      assert ds + later == [ds[0]] + (ds[1..] + later);
      TameParts(ds[0], ds[1..] + later);
      LeftIsTame(a, ds[1..], later);
      PlaceStops(cap, ds[0]);
      PackNodeStops(a, ds[1..]);
      if l.count > 0 {
        forall e | e in rest + later ensures Tiles(l.units, e.units) {
          if e in rest {
            var f :| f in ds[1..] && f.units == e.units;
            assert f in [ds[0]] + (ds[1..] + later);
          } else {
            assert e in [ds[0]] + (ds[1..] + later);
          }
        }
        TameCons(l, rest + later);
        assert [l] + rest + later == [l] + (rest + later);
      } else {
        assert [] + rest == rest;
      }
    }
  }

  lemma {:induction false} PackAllKeeps(avails: seq<Vec>, i: nat, ds: seq<Demand>, others: multiset<Vec>, later: seq<Demand>)
    requires i <= |avails| && Tame(ds + later) && Placeable(avails, Replicas(ds) + others)
    requires forall v :: v in others ==> Asked(later, v)
    ensures var (bs, left) := PackAll(avails[i..], ds);
            Placeable(avails[..i] + bs, Replicas(left) + others)
    decreases |avails| - i
  {
    hide Tame, Placeable;
    if i == |avails| {
      assert avails[..i] + [] == avails;
    } else {
      var (a, left) := PackNode(avails[i], ds);
      PackNodeKeeps(avails, i, ds, others, later);
      LeftIsTame(avails[i], ds, later);
      var less := avails[i := a];
      PackAllKeeps(less, i + 1, left, others, later);
      var (bs, rest) := PackAll(avails[i + 1..], left);
      assert avails[i..][1..] == avails[i + 1..] == less[i + 1..];
      assert less[..i + 1] + bs == avails[..i] + ([a] + bs);
    }
  }

  /** A demand that fits nowhere is in no placement. */
  lemma NowhereInPlacement(avails: seq<Vec>, d: Demand, replicas: multiset<Vec>)
    requires Placeable(avails, replicas) && FitsNowhere(d, avails)
    ensures d.units !in replicas
  {
    var rows :| IsPlacement(avails, rows, replicas);
    if d.units in replicas {
      var j := InSomeRow(rows, d.units);
      LoadCoversEach(rows[j], d.units);
    }
  }

  /** A placeable request is packed entirely, and what was to be placed with it still can be. */
  lemma {:induction false} PackAllComplete(avails: seq<Vec>, ds: seq<Demand>, others: multiset<Vec>, later: seq<Demand>)
    requires avails != [] && Tame(ds + later) && Placeable(avails, Replicas(ds) + others)
    requires forall v :: v in others ==> Asked(later, v)
    ensures PackAll(avails, ds).1 == [] && Placeable(PackAll(avails, ds).0, others)
  {
    hide Tame, Placeable;
    var (bs, left) := PackAll(avails, ds);
    PackAllKeeps(avails, 0, ds, others, later);
    assert avails[0..] == avails && avails[..0] + bs == bs;
    if left != [] {
      PackAllStops(avails, ds, left[0]);
      assert left[0].units in Replicas(left);
      NowhereInPlacement(bs, left[0], Replicas(left) + others);
    } else {
      assert Replicas(left) + others == others;
    }
  }

  // ---------------------------------------------------------------- requests in sequence

  /** All demands of all requests, in the order they are packed. */
  function Flat(requests: seq<seq<Demand>>): seq<Demand> {
    if requests == [] then [] else requests[0] + Flat(requests[1..])
  }

  lemma {:induction false} JointAsked(requests: seq<seq<Demand>>, v: Vec)
    requires v in JointReplicas(requests)
    ensures Asked(Flat(requests), v)
  {
    if v in Replicas(requests[0]) {
      ReplicasAsked(requests[0], v);
    } else {
      JointAsked(requests[1..], v);
    }
    AskedConcat(requests[0], Flat(requests[1..]), v);
  }

  lemma TameSuffix(a: seq<Demand>, b: seq<Demand>)
    requires Tame(a + b)
    ensures Tame(b)
  {
    var all := a + b;
    forall i, j | 0 <= i < j < |b| ensures Tiles(b[i].units, b[j].units) {
      assert Tiles(all[|a| + i].units, all[|a| + j].units);
    }
  }

  lemma {:induction false} PackEachComplete(avails: seq<Vec>, requests: seq<seq<Demand>>)
    requires avails != [] && Tame(Flat(requests)) && Placeable(avails, JointReplicas(requests))
    ensures PackEach(avails, requests)
    decreases |requests|
  {
    hide Tame, Placeable;
    if requests != [] {
      var rest := requests[1..];
      forall v | v in JointReplicas(rest) ensures Asked(Flat(rest), v) {
        JointAsked(rest, v);
      }
      PackAllComplete(avails, requests[0], JointReplicas(rest), Flat(rest));
      TameSuffix(requests[0], Flat(rest));
      var rows := PackAllAccounts(avails, requests[0]);
      PackEachComplete(PackAll(avails, requests[0]).0, rest);
    }
  }

  /** For tame requests and at least one node, the packer succeeds exactly when a joint placement exists. */
  lemma {:induction false} PackEachIffPlaceable(avails: seq<Vec>, requests: seq<seq<Demand>>)
    requires avails != [] && Tame(Flat(requests))
    ensures PackEach(avails, requests) <==> Placeable(avails, JointReplicas(requests))
  {
    if PackEach(avails, requests) {
      var rows := PackEachSound(avails, requests);
    } else if Placeable(avails, JointReplicas(requests)) {
      PackEachComplete(avails, requests);
    }
  }

  /** Tame requests that ask for no more than some packed ones, whatever those were, are packed too. */
  lemma {:induction false} PackEachMonotone(avails: seq<Vec>, more: seq<seq<Demand>>, fewer: seq<seq<Demand>>)
    requires avails != [] && PackEach(avails, more)
    requires Tame(Flat(fewer)) && JointReplicas(fewer) <= JointReplicas(more)
    ensures PackEach(avails, fewer)
  {
    var rows := PackEachSound(avails, more);
    PlaceableShrinks(avails, JointReplicas(more), JointReplicas(fewer));
    PackEachComplete(avails, fewer);
  }

  /** Demands of one size are tame. */
  lemma SameUnitsTame(ds: seq<Demand>, u: Vec)
    requires forall d :: d in ds ==> d.units == u
    ensures Tame(ds)
  {
    TilesSelf(u);
    forall i, j | 0 <= i < j < |ds| ensures Tiles(ds[i].units, ds[j].units) {
      assert ds[i] in ds && ds[j] in ds;
    }
  }

  /** On one node there is nothing to get wrong: a request is packed exactly when it weighs no more than the node has. */
  lemma {:induction false} OneNodeExact(a: Vec, ds: seq<Demand>)
    ensures PackNode(a, ds).1 == [] <==> Leq(Weight(ds), a)
  {
    var (b, left) := PackNode(a, ds);
    PackNodeWeight(a, ds);
    PackNodeStops(a, ds);
    if Leq(Weight(ds), a) && left != [] {
      assert left[0] in left;
      WeightCoversHead(left);
    }
  }

  lemma {:induction false} WeightCoversHead(ds: seq<Demand>)
    requires ds != [] && ds[0].count > 0
    ensures Leq(ds[0].units, Weight(ds))
  {
    AtLeastOnce(ds[0].count, ds[0].units.cpu);
    AtLeastOnce(ds[0].count, ds[0].units.memory);
    AtLeastOnce(ds[0].count, ds[0].units.storage);
  }

  /** Without nodes a request is refused even if it asks for nothing. */
  lemma {:induction false} NoNodes(ds: seq<Demand>)
    ensures PackAll([], ds).1 == [] <==> ds == []
    ensures Placeable([], Replicas(ds)) <==> forall d :: d in ds ==> d.count == 0
  {
    if Placeable([], Replicas(ds)) {
      var rows :| IsPlacement([], rows, Replicas(ds));
    } else {
      assert Replicas(ds) == multiset{} ==> IsPlacement([], [], Replicas(ds));
    }
    NothingAsked(ds);
  }

  lemma {:induction false} NothingAsked(ds: seq<Demand>)
    ensures Replicas(ds) == multiset{} <==> forall d :: d in ds ==> d.count == 0
  {
    if ds != [] {
      NothingAsked(ds[1..]);
      assert ds[0] in ds;
      assert ds[0].count > 0 ==> ds[0].units in Replicas(ds);
      assert forall d :: d in ds ==> d == ds[0] || d in ds[1..];
    }
  }

  // ---------------------------------------------------------------- the condition is exact

  /** The largest number of `w` that fit in `v`. */
  lemma {:induction false} MostCopies(v: Vec, w: Vec) returns (k: nat)
    requires w != Vec(0, 0, 0)
    ensures Leq(Scale(k, w), v) && !Leq(Scale(k + 1, w), v)
    decreases v.cpu + v.memory + v.storage
  {
    ScaleStep(0, w);
    if !Leq(w, v) {
      k := 0;
    } else {
      var n := MostCopies(Minus(v, w), w);
      k := n + 1;
      ScaleStep(n, w);
      ScaleStep(n + 1, w);
    }
  }

  function Most(x: nat, y: nat): nat {
    if x < y then y else x
  }

  /** The least that holds either. */
  function Hull(v: Vec, w: Vec): (r: Vec)
    ensures Leq(v, r) && Leq(w, r)
  {
    Vec(Most(v.cpu, w.cpu), Most(v.memory, w.memory), Most(v.storage, w.storage))
  }

  /** Where `v` is no multiple of `w`, it takes up the room of one `w` on a node just big enough for either `v` or one `w` too many for `v`. */
  lemma NoRoomBeside(v: Vec, w: Vec, k: nat)
    requires !Tiles(v, w) && Leq(Scale(k, w), v)
    ensures !Leq(w, Minus(Hull(v, Scale(k + 1, w)), v))
  {
    ScaleStep(k, w);
    if Leq(w, Minus(Hull(v, Scale(k + 1, w)), v)) {
      assert Matches(v, k, w);
    }
  }

  lemma {:induction false} NotAllPlaced(v: Vec, d: Demand)
    requires !Leq(Scale(d.count, d.units), v)
    ensures Place(v, d).1.count > 0
  {
    PlaceWeight(v, d);
  }

  predicate AllZero(zs: seq<Demand>) {
    forall z :: z in zs ==> z.count == 0
  }

  lemma {:induction false} SkipZeros(a: Vec, zs: seq<Demand>, ds: seq<Demand>)
    requires AllZero(zs)
    ensures PackNode(a, zs + ds) == PackNode(a, ds) && Replicas(zs + ds) == Replicas(ds)
    decreases |zs|
  {
    if zs == [] {
      assert zs + ds == ds;
    } else {
      assert zs[0] in zs && (zs + ds)[1..] == zs[1..] + ds;
      SkipZeros(a, zs[1..], ds);
      assert Place(a, zs[0]) == (a, zs[0]);
      assert [] + PackNode(a, ds).1 == PackNode(a, ds).1;
    }
  }

  /** A list of which only two demands ask for anything. */
  ghost predicate OnlyTwo(ds: seq<Demand>, i: nat, j: nat) {
    i < j < |ds| && AllZero(ds[..i]) && AllZero(ds[i + 1..j]) && AllZero(ds[j + 1..])
  }

  lemma {:induction false} TwoMatter(a: Vec, ds: seq<Demand>, i: nat, j: nat)
    requires OnlyTwo(ds, i, j)
    ensures PackNode(a, ds) == PackNode(a, [ds[i], ds[j]]) && Replicas(ds) == Replicas([ds[i], ds[j]])
  {
    var x, y := ds[i], ds[j];
    var mid, end := ds[i + 1..j], ds[j + 1..];
    assert ds == ds[..i] + ([x] + (mid + ([y] + end)));
    SkipZeros(a, ds[..i], [x] + (mid + ([y] + end)));
    var b := Place(a, x).0;
    SkipZeros(b, mid, [y] + end);
    SkipZeros(Place(b, y).0, end, []);
    assert end + [] == end;
    assert ([x] + (mid + ([y] + end)))[1..] == mid + ([y] + end) && ([y] + end)[1..] == end;
    assert [x, y][1..] == [y] && [y][1..] == [];
  }

  lemma {:induction false} SecondWaits(a: Vec, v: Vec, y: Demand)
    requires y.count > 0 && Leq(v, a) && !Leq(y.units, Minus(a, v))
    ensures PackNode(a, [Demand(v, 1), y]) == (Minus(a, v), [y])
  {
    var x, less := Demand(v, 1), Minus(a, v);
    assert Place(a, x) == Place(less, Demand(v, 0)) == (less, Demand(v, 0));
    assert Place(less, y) == (less, y);
    assert [x, y][1..] == [y] && [] + [y] == [y];
    PackNodeOne(less, y);
  }

  lemma OneDemandWeight(d: Demand)
    ensures Weight([d]) == Scale(d.count, d.units)
  {
    assert [d][1..] == [];
  }

  lemma OneDemandReplicas(d: Demand)
    ensures Replicas([d]) == Copies(d.units, d.count)
  {
    assert [d][1..] == [];
  }

  lemma {:induction false} PackNothing(a: Vec)
    ensures PackNode(a, []) == (a, [])
  {
  }

  /** A demand that one of two nodes can take whole is packed, and the second node is only touched if it is needed. */
  lemma OneOfTwo(a: Vec, b: Vec, d: Demand)
    requires Leq(Scale(d.count, d.units), a) || (d.count == 1 && Leq(d.units, b))
    ensures PackAll([a, b], [d]).1 == []
    ensures Leq(Scale(d.count, d.units), a) ==> |PackAll([a, b], [d]).0| == 2 && PackAll([a, b], [d]).0[1] == b
  {
    hide PackNode, PackAll, Weight;
    PackAllTwo(a, b, [d]);
    OneDemandWeight(d);
    OneNodeExact(a, [d]);
    PackNothing(b);
    if PackNode(a, [d]).1 != [] {
      PackNodeOne(a, d);
      PlaceStops(a, d);
      OnlyOneLeft(a, d);
      OneNodeExact(b, [d]);
    }
  }

  lemma {:induction false} OnlyOneLeft(a: Vec, d: Demand)
    requires d.count == 1 && Place(a, d).1.count > 0
    ensures Place(a, d).1 == d
  {
  }

  /** Asked for the other way round, the same is accepted. */
  lemma ReversedAccepted(a: Vec, v: Vec, w: Vec, n: nat)
    requires Leq(Scale(n, w), a)
    ensures PackEach([a, v], [[Demand(w, n)], [Demand(v, 1)]])
    ensures JointReplicas([[Demand(w, n)], [Demand(v, 1)]]) == Replicas([Demand(v, 1), Demand(w, n)])
  {
    hide PackAll;
    var x, y := Demand(v, 1), Demand(w, n);
    OneOfTwo(a, v, y);
    var bs := PackAll([a, v], [y]).0;
    assert bs == [bs[0], v];
    OneOfTwo(bs[0], v, x);
    var more := [[y], [x]];
    assert more[1..] == [[x]] && [[x]][1..] == [];
    assert PackEach(PackAll(bs, [x]).0, []);
    assert PackEach(bs, [[x]]);
    OneDemandReplicas(x);
    OneDemandReplicas(y);
    assert JointReplicas([]) == multiset{} && JointReplicas([[x]]) == Replicas([x]) + multiset{};
    assert JointReplicas(more) == Replicas([y]) + Replicas([x]);
    assert [x, y][1..] == [y];
  }

  /** The first goes where the second should have gone. */
  lemma {:induction false} TwoRefused(v: Vec, w: Vec, k: nat)
    requires !Tiles(v, w) && Leq(Scale(k, w), v) && !Leq(Scale(k + 1, w), v)
    ensures PackNode(v, PackNode(Hull(v, Scale(k + 1, w)), [Demand(v, 1), Demand(w, k + 1)]).1).1 != []
  {
    hide Tiles, Scale;
    var a, y := Hull(v, Scale(k + 1, w)), Demand(w, k + 1);
    NoRoomBeside(v, w, k);
    SecondWaits(a, v, y);
    PackNodeOne(v, y);
    NotAllPlaced(v, y);
  }

  /** The same units in the same order, in other numbers. */
  ghost predicate SameUnits(ds: seq<Demand>, es: seq<Demand>) {
    |ds| == |es| && forall i :: 0 <= i < |ds| ==> ds[i].units == es[i].units
  }

  /** The packer takes `ds` whenever it has a placement, and only then. */
  ghost predicate Exact(avails: seq<Vec>, ds: seq<Demand>) {
    PackAll(avails, ds).1 == [] <==> Placeable(avails, Replicas(ds))
  }

  function Only(ds: seq<Demand>, i: nat, j: nat, count: nat): (r: seq<Demand>)
    ensures |r| == |ds| && forall n :: 0 <= n < |ds| ==> r[n] == Demand(ds[n].units, if n == i then 1 else if n == j then count else 0)
  {
    seq(|ds|, n requires 0 <= n < |ds| => Demand(ds[n].units, if n == i then 1 else if n == j then count else 0))
  }

  /** Two demands out of tune are enough: on some nodes, in some numbers, they are refused though the same is accepted in another order. */
  lemma UntunedRefused(ds: seq<Demand>, i: nat, j: nat) returns (avails: seq<Vec>, es: seq<Demand>, more: seq<seq<Demand>>)
    requires i < j < |ds| && !Tiles(ds[i].units, ds[j].units)
    ensures avails != [] && SameUnits(ds, es) && PackAll(avails, es).1 != []
    ensures PackEach(avails, more) && JointReplicas(more) == Replicas(es)
  {
    var v, w := ds[i].units, ds[j].units;
    NothingTiled(v);
    var k := MostCopies(v, w);
    var a := Hull(v, Scale(k + 1, w));
    avails, es, more := [a, v], Only(ds, i, j, k + 1), [[Demand(w, k + 1)], [Demand(v, 1)]];
    TwoRefused(v, w, k);
    assert OnlyTwo(es, i, j);
    TwoMatter(a, es, i, j);
    PackAllTwo(a, v, es);
    ReversedAccepted(a, v, w, k + 1);
  }

  lemma OneRequestExact(avails: seq<Vec>, ds: seq<Demand>)
    requires avails != [] && Tame(ds)
    ensures Exact(avails, ds)
  {
    var requests := [ds];
    assert requests[1..] == [] && Flat([]) == [] && JointReplicas([]) == multiset{};
    assert Flat(requests) == ds + [] == ds;
    assert JointReplicas(requests) == Replicas(ds) + multiset{} == Replicas(ds);
    PackEachIffPlaceable(avails, requests);
    assert PackEach(PackAll(avails, ds).0, requests[1..]);
  }

  /**
   * The exact condition for completeness: first fit finds a placement of
   * these units whenever there is one, on every inventory and in every
   * number, if and only if each is a whole multiple of every later one in
   * the kinds the later one needs.
   */
  lemma CompleteIffTame(ds: seq<Demand>)
    ensures Tame(ds) <==> forall avails, es :: avails != [] && SameUnits(ds, es) ==> Exact(avails, es)
  {
    if Tame(ds) {
      forall avails, es | avails != [] && SameUnits(ds, es) ensures Exact(avails, es) {
        assert Tame(es);
        OneRequestExact(avails, es);
      }
    } else {
      var i, j :| 0 <= i < j < |ds| && !Tiles(ds[i].units, ds[j].units);
      var avails, es, more := UntunedRefused(ds, i, j);
      var rows := PackEachSound(avails, more);
      assert !Exact(avails, es);
    }
  }

  /** Whoever asks for no more than some accepted requests is accepted. */
  ghost predicate Monotone(avails: seq<Vec>, ds: seq<Demand>) {
    forall more :: PackEach(avails, more) && Replicas(ds) <= JointReplicas(more) ==> PackAll(avails, ds).1 == []
  }

  /** The same condition is exact for acceptance to survive asking for less. */
  lemma MonotoneIffTame(ds: seq<Demand>)
    ensures Tame(ds) <==> forall avails, es :: avails != [] && SameUnits(ds, es) ==> Monotone(avails, es)
  {
    if Tame(ds) {
      forall avails, es | avails != [] && SameUnits(ds, es) ensures Monotone(avails, es) {
        assert Tame(es);
        OneRequestExact(avails, es);
        forall more | PackEach(avails, more) && Replicas(es) <= JointReplicas(more) ensures PackAll(avails, es).1 == [] {
          var rows := PackEachSound(avails, more);
          PlaceableShrinks(avails, JointReplicas(more), Replicas(es));
        }
      }
    } else {
      var i, j :| 0 <= i < j < |ds| && !Tiles(ds[i].units, ds[j].units);
      var avails, es, more := UntunedRefused(ds, i, j);
      assert !Monotone(avails, es);
    }
  }
}
