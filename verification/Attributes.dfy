/** Attribute lists: sorted by key, and read as maps. */
module Attributes {
  import opened ResourceTypes
  import opened Names

  /** A list read as a map: the last occurrence of a key wins. */
  function AttrMap(attrs: seq<Attribute>): map<string, string> {
    if attrs == [] then map[]
    else
      var last := attrs[|attrs| - 1];
      AttrMap(attrs[..|attrs| - 1])[last.key := last.value]
  }

  ghost predicate KeySorted(attrs: seq<Attribute>) {
    forall i, j :: 0 <= i < j < |attrs| ==> LexLeq(attrs[i].key, attrs[j].key)
  }

  /** Put `e` behind everything whose key is not greater. */
  function InsertStable(t: seq<Attribute>, e: Attribute): seq<Attribute> {
    if t == [] || LexLeq(t[|t| - 1].key, e.key) then t + [e]
    else InsertStable(t[..|t| - 1], e) + [t[|t| - 1]]
  }

  /** `sort.SliceStable` by key. */
  function SortStable(attrs: seq<Attribute>): seq<Attribute> {
    if attrs == [] then []
    else InsertStable(SortStable(attrs[..|attrs| - 1]), attrs[|attrs| - 1])
  }

  lemma {:induction false} AttrMapAppend(t: seq<Attribute>, e: Attribute)
    ensures AttrMap(t + [e]) == AttrMap(t)[e.key := e.value]
  {
    assert (t + [e])[..|t|] == t;
  }

  lemma UpdatesCommute(m: map<string, string>, a: Attribute, b: Attribute)
    requires a.key != b.key
    ensures m[a.key := a.value][b.key := b.value] == m[b.key := b.value][a.key := a.value]
  {
  }

  lemma {:induction false} InsertStableMap(t: seq<Attribute>, e: Attribute)
    requires KeySorted(t)
    ensures AttrMap(InsertStable(t, e)) == AttrMap(t)[e.key := e.value]
  {
    hide LexLeq, AttrMap;
    if t == [] || LexLeq(t[|t| - 1].key, e.key) {
      AttrMapAppend(t, e);
    } else {
      var front, x := t[..|t| - 1], t[|t| - 1];
      InsertStableMap(front, e);
      AttrMapAppend(InsertStable(front, e), x);
      AttrMapAppend(front, x);
      assert t == front + [x];
      LexTotal(x.key, x.key);
      UpdatesCommute(AttrMap(front), e, x);
    }
  }

  lemma {:induction false} InsertStableSorted(t: seq<Attribute>, e: Attribute)
    requires KeySorted(t)
    ensures KeySorted(InsertStable(t, e))
    ensures multiset(InsertStable(t, e)) == multiset(t) + multiset{e}
  {
    hide LexLeq;
    if t != [] && !LexLeq(t[|t| - 1].key, e.key) {
      var front, x := t[..|t| - 1], t[|t| - 1];
      assert t == front + [x];
      InsertStableSorted(front, e);
      LexTotal(x.key, e.key);
      forall a | a in InsertStable(front, e) ensures LexLeq(a.key, x.key) {
        assert a in multiset(InsertStable(front, e));
        assert a in front || a == e;
      }
    } else if t != [] {
      forall i | 0 <= i < |t| ensures LexLeq(t[i].key, e.key) {
        LexTotal(t[i].key, t[i].key);
        if i < |t| - 1 {
          LexTransitive(t[i].key, t[|t| - 1].key, e.key);
        }
      }
    }
  }

  /** Sorting permutes, sorts and, being stable, keeps the map. */
  lemma {:induction false} SortStableRefines(attrs: seq<Attribute>)
    ensures KeySorted(SortStable(attrs))
    ensures multiset(SortStable(attrs)) == multiset(attrs)
    ensures AttrMap(SortStable(attrs)) == AttrMap(attrs)
  {
    if attrs != [] {
      var front, x := attrs[..|attrs| - 1], attrs[|attrs| - 1];
      assert attrs == front + [x];
      SortStableRefines(front);
      InsertStableSorted(SortStable(front), x);
      InsertStableMap(SortStable(front), x);
    }
  }

  /** The value of a key is that of its last occurrence, and the keys are those that occur. */
  lemma {:induction false} LastWins(attrs: seq<Attribute>, i: nat)
    requires i < |attrs| && forall j :: i < j < |attrs| ==> attrs[j].key != attrs[i].key
    ensures attrs[i].key in AttrMap(attrs) && AttrMap(attrs)[attrs[i].key] == attrs[i].value
  {
    var n := |attrs| - 1;
    if i < n {
      assert forall j :: 0 <= j < n ==> attrs[..n][j] == attrs[j];
      LastWins(attrs[..n], i);
    }
  }

  lemma {:induction false} OnlyKeysThatOccur(attrs: seq<Attribute>, k: string)
    requires k in AttrMap(attrs)
    ensures exists i :: 0 <= i < |attrs| && attrs[i].key == k
  {
    var n := |attrs| - 1;
    if attrs[n].key != k {
      OnlyKeysThatOccur(attrs[..n], k);
      var i :| 0 <= i < n && attrs[..n][i].key == k;
      assert attrs[i].key == k;
    }
  }
}
