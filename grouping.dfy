/** Kotlin's `groupBy(keySelector, valueTransform)` on a list of key/value entries: a
    `LinkedHashMap` from each key to its values, keys in order of first appearance. */
module Grouping {
  import opened Wrappers
  import opened Seqs

  datatype Entry<K, V> = Entry(key: K, value: V)

  datatype Group<K, V> = Group(key: K, values: seq<V>)

  function Keys<K, V>(gs: seq<Group<K, V>>): (ks: seq<K>)
    ensures |ks| == |gs| && forall i :: 0 <= i < |gs| ==> ks[i] == gs[i].key
  {
    if gs == [] then [] else [gs[0].key] + Keys(gs[1..])
  }

  predicate KeysDistinct<K(==), V>(gs: seq<Group<K, V>>) {
    forall i, j :: 0 <= i < j < |gs| ==> gs[i].key != gs[j].key
  }

  /** The values filed under `key`, in list order. */
  function ValuesUnder<K(==), V>(es: seq<Entry<K, V>>, key: K): seq<V>
  {
    if es == [] then []
    else (if es[0].key == key then [es[0].value] else []) + ValuesUnder(es[1..], key)
  }

  lemma {:induction false} ValuesUnderSnoc<K, V>(es: seq<Entry<K, V>>, e: Entry<K, V>, key: K)
    ensures ValuesUnder(es + [e], key) == ValuesUnder(es, key) + (if e.key == key then [e.value] else [])
  {
    var t := es + [e];
    if es == [] {
      assert t == [e] && t[1..] == [];
    } else {
      assert t[0] == es[0] && t[1..] == es[1..] + [e];
      ValuesUnderSnoc(es[1..], e, key);
      assert ValuesUnder(t, key) == (if es[0].key == key then [es[0].value] else []) + ValuesUnder(t[1..], key);
    }
  }

  lemma {:induction false} ValuesUnderNone<K, V>(es: seq<Entry<K, V>>, key: K)
    requires forall i :: 0 <= i < |es| ==> es[i].key != key
    ensures ValuesUnder(es, key) == []
  {
    if es != [] {
      ValuesUnderNone(es[1..], key);
    }
  }

  lemma {:induction false} ValuesUnderHas<K, V>(es: seq<Entry<K, V>>, k: nat)
    requires k < |es|
    ensures es[k].value in ValuesUnder(es, es[k].key)
  {
    if k > 0 {
      ValuesUnderHas(es[1..], k - 1);
    }
  }

  /** The position of the key's group. */
  function GroupIndex<K(==), V>(gs: seq<Group<K, V>>, key: K): (r: Option<nat>)
    ensures r.None? <==> key !in Keys(gs)
    ensures r.Some? ==> r.value < |gs| && gs[r.value].key == key
  {
    var r := FirstIndex(gs, (g: Group<K, V>) => g.key == key);
    assert r.None? ==> key !in Keys(gs);
    r
  }

  /** One step of `groupBy`: append the value to the group of its key, or open a new group
      at the end. */
  function AddTo<K(==), V>(gs: seq<Group<K, V>>, key: K, value: V): (r: seq<Group<K, V>>)
    requires KeysDistinct(gs)
    ensures KeysDistinct(r)
    ensures Keys(r) == if key in Keys(gs) then Keys(gs) else Keys(gs) + [key]
  {
    match GroupIndex(gs, key)
    case Some(i) =>
      var r := gs[i := Group(key, gs[i].values + [value])];
      assert Keys(r) == Keys(gs);
      r
    case None =>
      var r := gs + [Group(key, [value])];
      assert Keys(r) == Keys(gs) + [key];
      r
  }

  /** What `AddTo` does to the values of each group. */
  lemma AddToValues<K, V>(gs: seq<Group<K, V>>, key: K, value: V, i: nat)
    requires KeysDistinct(gs) && i < |AddTo(gs, key, value)|
    ensures var r := AddTo(gs, key, value);
      r[i].values == (if i < |gs| then gs[i].values else []) + (if r[i].key == key then [value] else [])
  {
    var r := AddTo(gs, key, value);
    if GroupIndex(gs, key).None? && i < |gs| {
      assert r[i] == gs[i];
    }
  }

  /** `groupBy`: `AddTo` for each entry, in list order. */
  function GroupBy<K(==), V>(es: seq<Entry<K, V>>): (r: seq<Group<K, V>>)
    ensures KeysDistinct(r)
  {
    if es == [] then []
    else AddTo(GroupBy(es[..|es| - 1]), es[|es| - 1].key, es[|es| - 1].value)
  }

  /** Every entry's key has a group. */
  lemma {:induction false} GroupByCovers<K, V>(es: seq<Entry<K, V>>, k: nat)
    requires k < |es|
    ensures es[k].key in Keys(GroupBy(es))
  {
    var init := es[..|es| - 1];
    var gs := GroupBy(init);
    assert Keys(GroupBy(es)) == Keys(AddTo(gs, es[|es| - 1].key, es[|es| - 1].value));
    if k < |init| {
      GroupByCovers(init, k);
      assert es[k] == init[k];
    }
  }

  /** Each group holds exactly the values of its key, in list order, and is never empty. */
  lemma {:induction false} GroupByValues<K, V>(es: seq<Entry<K, V>>, i: nat)
    requires i < |GroupBy(es)|
    ensures GroupBy(es)[i].values == ValuesUnder(es, GroupBy(es)[i].key)
    ensures GroupBy(es)[i].values != []
  {
    var init := es[..|es| - 1];
    var last := es[|es| - 1];
    assert es == init + [last];
    var gs := GroupBy(init);
    var r := GroupBy(es);
    assert r == AddTo(gs, last.key, last.value);
    var key := r[i].key;
    assert Keys(r)[i] == key;
    AddToValues(gs, last.key, last.value, i);
    ValuesUnderSnoc(init, last, key);
    if i < |gs| {
      GroupByValues(init, i);
      assert Keys(gs)[i] == Keys(r)[i];
    } else {
      assert last.key !in Keys(gs) && key == last.key;
      forall j | 0 <= j < |init| ensures init[j].key != last.key {
        GroupByCovers(init, j);
      }
      ValuesUnderNone(init, last.key);
    }
  }

  /** Exactly one group has the key, and it holds the value. */
  predicate FiledOnce<K(==), V(==)>(gs: seq<Group<K, V>>, key: K, value: V) {
    && (exists i :: 0 <= i < |gs| && gs[i].key == key && value in gs[i].values)
    && forall i, j :: 0 <= i < |gs| && 0 <= j < |gs| && gs[i].key == key && gs[j].key == key ==> i == j
  }

  /** Every entry is filed in exactly one group, the one of its key. */
  lemma EachEntryInOneGroup<K, V>(es: seq<Entry<K, V>>, k: nat)
    requires k < |es|
    ensures FiledOnce(GroupBy(es), es[k].key, es[k].value)
  {
    var gs := GroupBy(es);
    GroupByCovers(es, k);
    var i :| 0 <= i < |gs| && Keys(gs)[i] == es[k].key;
    GroupByValues(es, i);
    ValuesUnderHas(es, k);
    assert gs[i].key == es[k].key && es[k].value in gs[i].values;
  }
}
