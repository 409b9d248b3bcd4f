/**
 A map that remembers insertion order, as the runtime's own map does: setting an existing key keeps
 its place, deleting and setting it again moves it to the back, and the front is the oldest.
 */
module InsertionMap {

  function Elements(order: seq<string>): set<string> {
    if |order| == 0 then {} else {order[0]} + Elements(order[1..])
  }

  predicate Distinct(order: seq<string>) {
    |order| == 0 || (order[0] !in Elements(order[1..]) && Distinct(order[1..]))
  }

  function Without(order: seq<string>, key: string): seq<string> {
    if |order| == 0 then []
    else if order[0] == key then order[1..]
    else [order[0]] + Without(order[1..], key)
  }

  lemma {:induction false} WithoutRemoves(order: seq<string>, key: string)
    requires Distinct(order)
    ensures Distinct(Without(order, key))
    ensures Elements(Without(order, key)) == Elements(order) - {key}
    ensures |Without(order, key)| == if key in Elements(order) then |order| - 1 else |order|
  {
    if |order| > 0 && order[0] != key {
      WithoutRemoves(order[1..], key);
      var rest := Without(order[1..], key);
      assert ([order[0]] + rest)[1..] == rest;
    }
  }

  /** The keys that are kept keep their order. */
  lemma {:induction false} WithoutKeepsOrder(before: seq<string>, key: string, after: seq<string>)
    requires key !in before
    ensures Without(before + [key] + after, key) == before + after
  {
    var order := before + [key] + after;
    if |before| == 0 {
      assert order[1..] == after && before + after == after;
    } else {
      WithoutKeepsOrder(before[1..], key, after);
      assert order[1..] == before[1..] + [key] + after;
      assert [before[0]] + (before[1..] + after) == before + after;
    }
  }

  lemma {:induction false} AppendedAtBack(order: seq<string>, key: string)
    requires Distinct(order) && key !in Elements(order)
    ensures Distinct(order + [key]) && Elements(order + [key]) == Elements(order) + {key}
  {
    if |order| > 0 {
      AppendedAtBack(order[1..], key);
      assert (order + [key])[1..] == order[1..] + [key];
    } else {
      assert order + [key] == [key];
      assert [key][1..] == [];
    }
  }

  lemma {:induction false} AbsentIsWithout(order: seq<string>, key: string)
    requires key !in Elements(order)
    ensures Without(order, key) == order
  {
    if |order| > 0 {
      AbsentIsWithout(order[1..], key);
    }
  }

  datatype OrderedMap<V> = OrderedMap(order: seq<string>, entries: map<string, V>) {

    predicate Valid() {
      Distinct(order) && Elements(order) == entries.Keys
    }

    function Set(key: string, value: V): OrderedMap<V> {
      OrderedMap(if key in entries then order else order + [key], entries[key := value])
    }

    function Delete(key: string): OrderedMap<V> {
      if key in entries then OrderedMap(Without(order, key), entries - {key}) else this
    }
  }

  lemma SetValid<V>(m: OrderedMap<V>, key: string, value: V)
    requires m.Valid()
    ensures m.Set(key, value).Valid()
  {
    if key !in m.entries {
      AppendedAtBack(m.order, key);
    }
  }

  lemma DeleteValid<V>(m: OrderedMap<V>, key: string)
    requires m.Valid()
    ensures m.Delete(key).Valid() && m.Delete(key).entries == m.entries - {key}
    ensures |m.Delete(key).order| == if key in m.entries then |m.order| - 1 else |m.order|
  {
    WithoutRemoves(m.order, key);
  }

  /** Deleting and setting again puts the key at the back, behind everything touched before it. */
  lemma TouchedMovesToBack<V>(m: OrderedMap<V>, key: string, value: V)
    requires m.Valid()
    ensures
      var touched := m.Delete(key).Set(key, value);
      && touched.Valid()
      && touched.order == Without(m.order, key) + [key]
      && touched.entries == m.entries[key := value]
      && Elements(touched.order) == Elements(m.order) + {key}
  {
    DeleteValid(m, key);
    SetValid(m.Delete(key), key, value);
    if key !in m.entries {
      AbsentIsWithout(m.order, key);
    }
  }

  lemma OldestRemoved<V>(m: OrderedMap<V>)
    requires m.Valid() && |m.order| > 0
    ensures m.order[0] in m.entries
    ensures m.Delete(m.order[0]) == OrderedMap(m.order[1..], m.entries - {m.order[0]})
    ensures m.Delete(m.order[0]).Valid()
  {
  }

  lemma {:induction false} LastIsElement(order: seq<string>)
    requires |order| > 0
    ensures order[|order| - 1] in Elements(order)
  {
    if |order| > 1 {
      LastIsElement(order[1..]);
    }
  }
}
