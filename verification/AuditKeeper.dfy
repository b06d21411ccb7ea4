/**
 * The audit keeper (x/audit/keeper): signed provider attributes kept as
 * key-sorted lists under byte keys, refining a map per provider and auditor.
 * In addresses and store keys a `char` stands for a byte.
 */
module AuditKeeper {
  import opened Wrappers
  import opened ResourceTypes
  import opened Names
  import opened Attributes

  datatype ProviderID = ProviderID(owner: string, auditor: string)

  datatype Provider = Provider(owner: string, auditor: string, attributes: seq<Attribute>)

  datatype KeeperError = ProviderNotFound | AttributeNotFound

  const ADDRESS_LENGTH := 20

  predicate IsID(id: ProviderID) {
    |id.owner| == |id.auditor| == ADDRESS_LENGTH
  }

  // ---------------------------------------------------------------- store keys

  function ProviderPrefix(owner: string): string {
    [1 as char] + owner
  }

  function ProviderKey(id: ProviderID): string {
    ProviderPrefix(id.owner) + id.auditor
  }

  lemma KeyInjective(a: ProviderID, b: ProviderID)
    requires IsID(a) && IsID(b) && ProviderKey(a) == ProviderKey(b)
    ensures a == b
  {
    assert a.owner == ProviderKey(a)[1..1 + ADDRESS_LENGTH] && b.owner == ProviderKey(b)[1..1 + ADDRESS_LENGTH];
    assert a.auditor == ProviderKey(a)[1 + ADDRESS_LENGTH..] && b.auditor == ProviderKey(b)[1 + ADDRESS_LENGTH..];
  }

  /** The prefix of an owner matches exactly the keys of that owner. */
  lemma PrefixExact(owner: string, id: ProviderID)
    requires IsID(id) && |owner| == ADDRESS_LENGTH
    ensures ProviderPrefix(owner) <= ProviderKey(id) <==> owner == id.owner
  {
    assert ProviderKey(id)[..1 + ADDRESS_LENGTH] == ProviderPrefix(id.owner);
    assert ProviderPrefix(owner)[1..] == owner && ProviderPrefix(id.owner)[1..] == id.owner;
  }

  // ---------------------------------------------------------------- attribute lists as maps

  /** The entries of a map as a key-sorted list: what ranging over the map and sorting yields. */
  function FromMap(kv: map<string, string>): (r: seq<Attribute>)
    ensures |r| == |SortedNames(kv.Keys)|
    ensures forall i :: 0 <= i < |r| ==> SortedNames(kv.Keys)[i] in kv
    ensures forall i :: 0 <= i < |r| ==> r[i] == Attribute(SortedNames(kv.Keys)[i], kv[SortedNames(kv.Keys)[i]])
  {
    var names := SortedNames(kv.Keys);
    assert forall i :: 0 <= i < |names| ==> names[i] in names;
    seq(|names|, i requires 0 <= i < |names| => Attribute(names[i], kv[names[i]]))
  }

  lemma {:induction false} DistinctMap(attrs: seq<Attribute>)
    requires forall i, j :: 0 <= i < j < |attrs| ==> attrs[i].key != attrs[j].key
    ensures forall k :: k in AttrMap(attrs) <==> exists i :: 0 <= i < |attrs| && attrs[i].key == k
    ensures forall i :: 0 <= i < |attrs| ==> AttrMap(attrs)[attrs[i].key] == attrs[i].value
  {
    if attrs != [] {
      var front, x := attrs[..|attrs| - 1], attrs[|attrs| - 1];
      DistinctMap(front);
      forall k ensures k in AttrMap(attrs) <==> exists i :: 0 <= i < |attrs| && attrs[i].key == k {
        if k in AttrMap(front) {
          var i :| 0 <= i < |front| && front[i].key == k;
          assert attrs[i].key == k;
        }
        if i :| 0 <= i < |attrs| && attrs[i].key == k {
          assert i < |front| ==> front[i].key == k;
        }
        assert attrs[|attrs| - 1].key == x.key;
      }
    }
  }

  lemma FromMapRefines(kv: map<string, string>)
    ensures KeySorted(FromMap(kv)) && AttrMap(FromMap(kv)) == kv
    ensures FromMap(kv) == [] <==> kv == map[]
  {
    hide AttrMap, SortedNames;
    var r, names := FromMap(kv), SortedNames(kv.Keys);
    DistinctMap(r);
    forall k ensures k in AttrMap(r) <==> k in kv {
      if k in kv {
        assert k in names;
        var i :| 0 <= i < |names| && names[i] == k;
        assert r[i].key == k;
      }
    }
    forall k | k in kv ensures AttrMap(r)[k] == kv[k] {
      assert k in names;
      var i :| 0 <= i < |names| && names[i] == k;
      assert r[i].key == k && r[i].value == kv[k];
    }
    if r == [] {
      assert kv.Keys == {};
    } else {
      assert names[0] in kv;
    }
  }

  /** The keys are distinct and all present. */
  ghost predicate Deletable(kv: map<string, string>, keys: seq<string>) {
    && (forall i :: 0 <= i < |keys| ==> keys[i] in kv)
    && (forall i, j :: 0 <= i < j < |keys| ==> keys[i] != keys[j])
  }

  // ---------------------------------------------------------------- the keeper

  function KeyOf(p: Provider): string {
    ProviderKey(ProviderID(p.owner, p.auditor))
  }

  predicate KeyBefore(p: Provider, q: Provider) {
    LexLeq(KeyOf(p), KeyOf(q)) && KeyOf(p) != KeyOf(q)
  }

  /** In increasing order of key, hence each record once. */
  ghost predicate InKeyOrder(ps: seq<Provider>) {
    forall i, j :: 0 <= i < j < |ps| ==> KeyBefore(ps[i], ps[j])
  }

  class Keeper {
    var store: map<string, Provider>

    /** Every record sits under the key of its own owner and auditor. */
    ghost predicate Valid()
      reads this
    {
      forall k :: k in store ==>
        var id := ProviderID(store[k].owner, store[k].auditor);
        IsID(id) && k == ProviderKey(id) && KeySorted(store[k].attributes)
    }

    /** The abstract record of an id. */
    ghost function Record(id: ProviderID): Option<map<string, string>>
      reads this
    {
      var k := ProviderKey(id);
      if k in store then Some(AttrMap(store[k].attributes)) else None
    }

    constructor ()
      ensures Valid() && store == map[]
    {
      store := map[];
    }

    method GetProviderByAuditor(id: ProviderID) returns (r: Option<Provider>)
      requires Valid() && IsID(id)
      ensures r.Some? <==> Record(id).Some?
      ensures r.Some? ==> r.value.owner == id.owner && r.value.auditor == id.auditor && Record(id) == Some(AttrMap(r.value.attributes))
    {
      var k := ProviderKey(id);
      if k !in store {
        return None;
      }
      KeyInjective(ProviderID(store[k].owner, store[k].auditor), id);
      r := Some(store[k]);
    }

    /** All records of an owner, found by key prefix. */
    method GetProviderAttributes(owner: string) returns (r: Option<seq<Provider>>)
      requires Valid() && |owner| == ADDRESS_LENGTH
      ensures r.None? <==> forall k :: k in store ==> store[k].owner != owner
      ensures r.Some? ==> forall p :: p in r.value <==> exists k :: k in store && store[k] == p && p.owner == owner
      ensures r.Some? ==> InKeyOrder(r.value)
    {
      var found: seq<Provider> := [];
      var keys := SortedNames(set k | k in store && ProviderPrefix(owner) <= k);
      forall k | k in store ensures ProviderPrefix(owner) <= k <==> store[k].owner == owner {
        PrefixExact(owner, ProviderID(store[k].owner, store[k].auditor));
      }
      for i := 0 to |keys|
        invariant |found| == i
        invariant forall j :: 0 <= j < i ==> keys[j] in store && found[j] == store[keys[j]]
      {
        assert keys[i] in keys;
        found := found + [store[keys[i]]];
      }
      forall p ensures p in found <==> exists k :: k in store && store[k] == p && p.owner == owner {
        if p in found {
          var j :| 0 <= j < |found| && found[j] == p;
          assert keys[j] in keys && keys[j] in store && store[keys[j]] == p;
        }
        if k :| k in store && store[k] == p && p.owner == owner {
          assert k in keys;
          var j :| 0 <= j < |keys| && keys[j] == k;
          assert found[j] == p;
        }
      }
      if |found| == 0 {
        assert forall k :: k in store && store[k].owner == owner ==> store[k] in found;
        return None;
      }
      assert found[0] in found;
      forall i, j | 0 <= i < j < |found| ensures KeyBefore(found[i], found[j]) {
        assert keys[i] == KeyOf(store[keys[i]]) && keys[j] == KeyOf(store[keys[j]]);
      }
      r := Some(found);
    }

    /** Update overrides the old map with the new one; a first write stores the sorted list. */
    method CreateOrUpdateProviderAttributes(id: ProviderID, attrs: seq<Attribute>)
      requires Valid() && IsID(id)
      modifies this
      ensures Valid()
      ensures Record(id) == Some((if old(Record(id)).Some? then old(Record(id)).value else map[]) + AttrMap(attrs))
      ensures forall other :: IsID(other) && other != id ==> Record(other) == old(Record(other))
    {
      hide ProviderKey, AttrMap, KeySorted;
      var key := ProviderKey(id);
      OtherKeys(id);
      var list;
      if key in store {
        list := Merged(store[key].attributes, attrs);
      } else {
        SortStableRefines(attrs);
        list := SortStable(attrs);
        assert map[] + AttrMap(attrs) == AttrMap(attrs);
      }
      store := store[key := Provider(id.owner, id.auditor, list)];
    }

    /** Delete the whole record, or exactly the given distinct existing keys; otherwise fail and change nothing. */
    method DeleteProviderAttributes(id: ProviderID, keys: Option<seq<string>>) returns (r: Result<(), KeeperError>)
      requires Valid() && IsID(id)
      modifies this
      ensures Valid()
      ensures forall other :: IsID(other) && other != id ==> Record(other) == old(Record(other))
      ensures r.Failure? ==> store == old(store)
      ensures r == Failure(ProviderNotFound) <==> old(Record(id)).None?
      ensures r == Failure(AttributeNotFound) <==>
              old(Record(id)).Some? && keys.Some? && !Deletable(old(Record(id)).value, keys.value)
      ensures r.Success? && keys.None? ==> Record(id) == None
      ensures r.Success? && keys.Some? ==>
                var left := old(Record(id)).value - (set k | k in keys.value);
                Record(id) == if left == map[] then None else Some(left)
    {
      hide ProviderKey, AttrMap, KeySorted, Deletable;
      var key := ProviderKey(id);
      OtherKeys(id);
      if key !in store {
        return Failure(ProviderNotFound);
      }
      if keys.None? {
        store := store - {key};
        return Success(());
      }
      var left := Remaining(store[key].attributes, keys.value);
      if left.None? {
        return Failure(AttributeNotFound);
      }
      if |left.value| == 0 {
        store := store - {key};
      } else {
        store := store[key := Provider(id.owner, id.auditor, left.value)];
      }
      r := Success(());
    }
  }

  lemma OtherKeys(id: ProviderID)
    requires IsID(id)
    ensures forall other :: IsID(other) && other != id ==> ProviderKey(other) != ProviderKey(id)
  {
    forall other | IsID(other) && other != id ensures ProviderKey(other) != ProviderKey(id) {
      if ProviderKey(other) == ProviderKey(id) {
        KeyInjective(other, id);
      }
    }
  }

  /** The update of an existing record: both lists into one map, out again sorted. */
  method Merged(existing: seq<Attribute>, attrs: seq<Attribute>) returns (list: seq<Attribute>)
    ensures KeySorted(list) && AttrMap(list) == AttrMap(existing) + AttrMap(attrs)
  {
    hide AttrMap, KeySorted;
    var kv := Collect(map[], existing);
    kv := Collect(kv, attrs);
    FromMapRefines(kv);
    SortStableRefines(FromMap(kv));
    list := SortStable(FromMap(kv));
    assert map[] + AttrMap(existing) == AttrMap(existing);
  }

  /** What a deletion leaves of a list, or nothing if it must fail. */
  method Remaining(existing: seq<Attribute>, keys: seq<string>) returns (r: Option<seq<Attribute>>)
    ensures r.Some? <==> Deletable(AttrMap(existing), keys)
    ensures r.Some? ==> KeySorted(r.value) && AttrMap(r.value) == AttrMap(existing) - (set k | k in keys)
    ensures r.Some? ==> (|r.value| == 0 <==> AttrMap(r.value) == map[])
  {
    hide AttrMap, KeySorted, Deletable;
    var kv := Collect(map[], existing);
    assert map[] + AttrMap(existing) == AttrMap(existing);
    var left := RemoveKeys(kv, keys);
    if left.None? {
      return None;
    }
    FromMapRefines(left.value);
    var list := FromMap(left.value);
    SortStableRefines(list);
    assert |multiset(SortStable(list))| == |SortStable(list)| && |multiset(list)| == |list|;
    r := Some(SortStable(list));
  }

  /** Enter a list into a map, front to back. */
  method Collect(given: map<string, string>, attrs: seq<Attribute>) returns (kv: map<string, string>)
    ensures kv == given + AttrMap(attrs)
  {
    kv := given;
    for i := 0 to |attrs|
      invariant kv == given + AttrMap(attrs[..i])
    {
      kv := kv[attrs[i].key := attrs[i].value];
      assert attrs[..i + 1] == attrs[..i] + [attrs[i]];
      AttrMapAppend(attrs[..i], attrs[i]);
    }
    assert attrs[..|attrs|] == attrs;
  }

  method RemoveKeys(given: map<string, string>, keys: seq<string>) returns (r: Option<map<string, string>>)
    ensures r.Some? <==> Deletable(given, keys)
    ensures r.Some? ==> r.value == given - (set k | k in keys)
  {
    var kv := given;
    for i := 0 to |keys|
      invariant Deletable(given, keys[..i])
      invariant kv == given - (set k | k in keys[..i])
    {
      if keys[i] !in kv {
        if keys[i] in given {
          assert keys[i] in keys[..i];
          var j :| 0 <= j < i && keys[j] == keys[i];
        }
        return None;
      }
      kv := kv - {keys[i]};
      assert keys[..i + 1] == keys[..i] + [keys[i]];
    }
    assert keys[..|keys|] == keys;
    r := Some(kv);
  }
}
