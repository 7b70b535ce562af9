/**
 * A JavaScript `Map`: keys are unique and remembered in insertion order. `set` on a key
 * that is already present replaces its value in place; `set` on a new key appends it;
 * `delete` removes it. Iteration visits keys (and values) in that order.
 */
module OrderedMaps {
  import opened Wrappers

  datatype OrderedMap<K(==, !new), V> = OrderedMap(entries: seq<(K, V)>) {

    /** Every key occurs once. */
    ghost predicate Valid() {
      forall i, j :: 0 <= i < j < |entries| ==> entries[i].0 != entries[j].0
    }

    /** `map.keys()` in iteration order. */
    function Keys(): (ks: seq<K>)
      ensures |ks| == |entries|
      ensures forall i :: 0 <= i < |entries| ==> ks[i] == entries[i].0
    {
      seq(|entries|, i requires 0 <= i < |entries| => entries[i].0)
    }

    /** `map.values()` in iteration order. */
    function Values(): (vs: seq<V>)
      ensures |vs| == |entries|
      ensures forall i :: 0 <= i < |entries| ==> vs[i] == entries[i].1
    {
      seq(|entries|, i requires 0 <= i < |entries| => entries[i].1)
    }

    /** Position of `k` in iteration order, if present. */
    function IndexOf(k: K): (r: Option<nat>)
      ensures r.Some? ==> r.value < |entries| && entries[r.value].0 == k
      ensures r.Some? ==> forall j :: 0 <= j < r.value ==> entries[j].0 != k
      ensures r.None? <==> forall j :: 0 <= j < |entries| ==> entries[j].0 != k
      decreases |entries|
    {
      if entries == [] then None
      else if entries[0].0 == k then Some(0)
      else
        match OrderedMap(entries[1..]).IndexOf(k)
        case Some(i) => Some(i + 1)
        case None => None
    }

    /** `map.has(k)`. */
    predicate Has(k: K) {
      IndexOf(k).Some?
    }

    /** `map.get(k)`, `None` for `undefined`. */
    function Get(k: K): (r: Option<V>)
      requires Valid()
      ensures r.Some? <==> k in Keys()
      ensures forall i :: 0 <= i < |entries| && entries[i].0 == k ==> r == Some(entries[i].1)
    {
      match IndexOf(k)
      case Some(i) => Some(entries[i].1)
      case None => None
    }

    /** `map.set(k, v)`: an existing key keeps its position, a new key goes last. */
    function Set(k: K, v: V): (m: OrderedMap<K, V>)
      requires Valid()
      ensures m.Valid()
      ensures k in Keys() ==> m.Keys() == Keys()
      ensures k !in Keys() ==> m.entries == entries + [(k, v)]
      ensures m.Get(k) == Some(v)
      ensures forall k' :: k' != k ==> m.Get(k') == Get(k')
    {
      match IndexOf(k)
      case Some(i) =>
        var m := OrderedMap(entries[i := (k, v)]);
        assert m.Keys() == Keys();
        m
      case None =>
        var m := OrderedMap(entries + [(k, v)]);
        assert m.Keys() == Keys() + [k];
        assert m.entries[|entries|] == (k, v);
        m
    }

    /** `map.delete(k)`: the remaining entries keep their order. */
    function Delete(k: K): (m: OrderedMap<K, V>)
      requires Valid()
      ensures m.Valid()
      ensures k !in m.Keys()
      ensures forall k' :: k' != k ==> m.Get(k') == Get(k')
      ensures m.Keys() == Without(Keys(), k)
      ensures k !in Keys() ==> m == this
    {
      match IndexOf(k)
      case None =>
        WithoutAbsent(Keys(), k);
        this
      case Some(i) =>
        RemoveAt(this, i);
        OrderedMap(entries[..i] + entries[i + 1..])
    }
  }

  /** The empty `new Map()`. */
  function Empty<K(==, !new), V>(): (m: OrderedMap<K, V>)
    ensures m.Valid() && m.Keys() == []
  {
    OrderedMap([])
  }

  /** `ks` with every occurrence of `k` removed, order kept. */
  function Without<K(==, !new)>(ks: seq<K>, k: K): (r: seq<K>)
    ensures k !in r
    ensures forall x :: x in r <==> x in ks && x != k
  {
    if ks == [] then []
    else if ks[0] == k then Without(ks[1..], k)
    else [ks[0]] + Without(ks[1..], k)
  }

  /** Removing the entry at position `i` keeps the map valid, keeps every other key's
      value and removes exactly that key from the iteration order. */
  lemma RemoveAt<K(!new), V>(om: OrderedMap<K, V>, i: nat)
    requires om.Valid() && i < |om.entries|
    ensures var m := OrderedMap(om.entries[..i] + om.entries[i + 1..]);
      && m.Valid()
      && om.entries[i].0 !in m.Keys()
      && (forall k' :: k' != om.entries[i].0 ==> m.Get(k') == om.Get(k'))
      && m.Keys() == Without(om.Keys(), om.entries[i].0)
  {
    var m := OrderedMap(om.entries[..i] + om.entries[i + 1..]);
    RemoveAtShifts(om, i);
    assert m.Valid();
    RemoveAtKeys(om, i);
    forall k' | k' != om.entries[i].0
      ensures m.Get(k') == om.Get(k')
    {
      RemoveAtGet(om, i, k');
    }
  }

  lemma RemoveAtShifts<K(!new), V>(om: OrderedMap<K, V>, i: nat)
    requires i < |om.entries|
    ensures var m := OrderedMap(om.entries[..i] + om.entries[i + 1..]);
      && |m.entries| == |om.entries| - 1
      && (forall j :: 0 <= j < i ==> m.entries[j] == om.entries[j])
      && (forall j :: i <= j < |m.entries| ==> m.entries[j] == om.entries[j + 1])
  {
  }

  lemma RemoveAtKeys<K(!new), V>(om: OrderedMap<K, V>, i: nat)
    requires om.Valid() && i < |om.entries|
    ensures var m := OrderedMap(om.entries[..i] + om.entries[i + 1..]);
      m.Keys() == Without(om.Keys(), om.entries[i].0)
  {
    var k := om.entries[i].0;
    var m := OrderedMap(om.entries[..i] + om.entries[i + 1..]);
    RemoveAtShifts(om, i);
    var mk := m.Keys();
    var a, b := mk[..i], mk[i..];
    assert om.Keys() == a + [k] + b;
    assert k !in a by {
      forall j | 0 <= j < |a| ensures a[j] != k { assert a[j] == om.entries[j].0; }
    }
    assert k !in b by {
      forall j | 0 <= j < |b| ensures b[j] != k { assert b[j] == om.entries[i + 1 + j].0; }
    }
    WithoutSplice(a, k, b);
    assert a + b == mk;
  }

  /** Removing the one occurrence of `k` from `a + [k] + b`. */
  lemma {:induction false} WithoutSplice<K(!new)>(a: seq<K>, k: K, b: seq<K>)
    requires k !in a && k !in b
    ensures Without(a + [k] + b, k) == a + b
  {
    WithoutConcat(a + [k], b, k);
    WithoutConcat(a, [k], k);
    WithoutAbsent(a, k);
    WithoutAbsent(b, k);
    assert Without([k], k) == [] by {
      assert [k][1..] == [];
    }
    calc {
      Without(a + [k] + b, k);
      Without(a + [k], k) + Without(b, k);
      Without(a, k) + Without([k], k) + Without(b, k);
      a + [] + b;
    }
    assert a + [] + b == a + b;
  }

  lemma RemoveAtGet<K(!new), V>(om: OrderedMap<K, V>, i: nat, k': K)
    requires om.Valid() && i < |om.entries| && k' != om.entries[i].0
    requires OrderedMap(om.entries[..i] + om.entries[i + 1..]).Valid()
    ensures OrderedMap(om.entries[..i] + om.entries[i + 1..]).Get(k') == om.Get(k')
  {
    var m := OrderedMap(om.entries[..i] + om.entries[i + 1..]);
    RemoveAtShifts(om, i);
    if k' in om.Keys() {
      var j :| 0 <= j < |om.entries| && om.entries[j].0 == k';
      var j' := if j < i then j else j - 1;
      assert m.entries[j'] == om.entries[j];
    } else {
      assert k' !in m.Keys();
    }
  }

  lemma {:induction false} WithoutAbsent<K(!new)>(ks: seq<K>, k: K)
    requires k !in ks
    ensures Without(ks, k) == ks
  {
    if ks != [] {
      WithoutAbsent(ks[1..], k);
    }
  }

  lemma {:induction false} WithoutConcat<K(!new)>(a: seq<K>, b: seq<K>, k: K)
    ensures Without(a + b, k) == Without(a, k) + Without(b, k)
  {
    if a != [] {
      assert (a + b)[1..] == a[1..] + b;
      WithoutConcat(a[1..], b, k);
    } else {
      assert a + b == b;
    }
  }
}
