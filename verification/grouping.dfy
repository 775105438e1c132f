/**
 * An insertion-ordered Python dict of lists, as built by
 *
 *     for x in xs: d.setdefault(key(x), []).append(val(x))
 *
 * represented as an association list of entries in insertion order.
 * `ValuesOf` and `FirstIndex` are reference definitions stated directly
 * over the input; the lemmas on `Group` connect the dict to them.
 */
module Grouping {

  datatype Entry<K, V> = Entry(key: K, values: seq<V>)

  /** The dict's keys in iteration (insertion) order. */
  function Keys<K, V>(g: seq<Entry<K, V>>): (ks: seq<K>)
    ensures |ks| == |g|
    ensures forall i :: 0 <= i < |g| ==> ks[i] == g[i].key
  {
    if |g| == 0 then [] else [g[0].key] + Keys(g[1..])
  }

  predicate Distinct<K(==)>(ks: seq<K>) {
    forall i, j :: 0 <= i < j < |ks| ==> ks[i] != ks[j]
  }

  /** `d.get(k, [])`: the list stored under `k`, empty when `k` is absent. */
  function Lookup<K(==), V>(g: seq<Entry<K, V>>, k: K): seq<V> {
    if |g| == 0 then []
    else if g[0].key == k then g[0].values
    else Lookup(g[1..], k)
  }

  /** Sum of the list lengths over all entries. */
  function TotalSize<K, V>(g: seq<Entry<K, V>>): nat {
    if |g| == 0 then 0 else |g[0].values| + TotalSize(g[1..])
  }

  predicate NonEmptyLists<K, V>(g: seq<Entry<K, V>>) {
    forall i :: 0 <= i < |g| ==> |g[i].values| > 0
  }

  /** `d.setdefault(k, []).append(v)`: extend the entry of `k`, or add `k` last. */
  function Append<K(==,!new), V>(g: seq<Entry<K, V>>, k: K, v: V): (r: seq<Entry<K, V>>)
    ensures Keys(r) == if k in Keys(g) then Keys(g) else Keys(g) + [k]
    ensures forall k' :: Lookup(r, k') == if k' == k then Lookup(g, k) + [v] else Lookup(g, k')
    ensures TotalSize(r) == TotalSize(g) + 1
    ensures NonEmptyLists(g) ==> NonEmptyLists(r)
  {
    if |g| == 0 then [Entry(k, [v])]
    else if g[0].key == k then
      var r := [Entry(k, g[0].values + [v])] + g[1..];
      assert r[1..] == g[1..];
      assert Keys(r) == Keys(g);
      r
    else
      var rest := Append(g[1..], k, v);
      var r := [g[0]] + rest;
      assert r[1..] == rest;
      assert k in Keys(g) <==> k in Keys(g[1..]);
      r
  }

  /** The values paired with key `k`, in input order (reference definition). */
  function ValuesOf<T, K(==), V>(xs: seq<T>, key: T -> K, val: T -> V, k: K): seq<V>
    decreases |xs|
  {
    if |xs| == 0 then []
    else
      var x := xs[|xs| - 1];
      ValuesOf(xs[..|xs| - 1], key, val, k) + (if key(x) == k then [val(x)] else [])
  }

  /** Index of the first element with key `k`, or `|xs|` when there is none. */
  function FirstIndex<T, K(==)>(xs: seq<T>, key: T -> K, k: K): (f: nat)
    ensures f <= |xs|
    ensures f < |xs| ==> key(xs[f]) == k
    ensures forall p :: 0 <= p < f && p < |xs| ==> key(xs[p]) != k
    decreases |xs|
  {
    if |xs| == 0 then 0
    else
      var n := |xs| - 1;
      var f := FirstIndex(xs[..n], key, k);
      if f < n then f
      else if key(xs[n]) == k then n
      else |xs|
  }

  /** The dict after the loop over `xs`. */
  function Group<T, K(==,!new), V>(xs: seq<T>, key: T -> K, val: T -> V): (r: seq<Entry<K, V>>)
    ensures TotalSize(r) == |xs|
    ensures NonEmptyLists(r)
    decreases |xs|
  {
    if |xs| == 0 then []
    else
      var n := |xs| - 1;
      Append(Group(xs[..n], key, val), key(xs[n]), val(xs[n]))
  }

  /**
   * The dict's keys are distinct, are exactly the keys occurring in `xs`, and
   * are ordered by their first occurrence in `xs`.
   */
  lemma {:induction false} GroupKeys<T, K(!new), V>(xs: seq<T>, key: T -> K, val: T -> V)
    ensures var r := Group(xs, key, val);
      && Distinct(Keys(r))
      && (forall k :: k in Keys(r) <==> FirstIndex(xs, key, k) < |xs|)
      && (forall i, j :: 0 <= i < j < |r| ==>
            FirstIndex(xs, key, r[i].key) < FirstIndex(xs, key, r[j].key))
    decreases |xs|
  {
    var r := Group(xs, key, val);
    if |xs| > 0 {
      var n := |xs| - 1;
      var g := Group(xs[..n], key, val);
      var kx := key(xs[n]);
      assert Keys(r) == if kx in Keys(g) then Keys(g) else Keys(g) + [kx] by {
        assert r == Append(g, kx, val(xs[n]));
      }
      GroupKeys(xs[..n], key, val);
      OrderOfKeys(xs[..n], key, g);
      KeysStep(xs, key, n, Keys(g), Keys(r));
      OrderStep(xs, key, r);
    }
  }

  /** The list stored under each key holds that key's values in input order. */
  lemma {:induction false} GroupLookup<T, K(!new), V>(xs: seq<T>, key: T -> K, val: T -> V)
    ensures forall k :: Lookup(Group(xs, key, val), k) == ValuesOf(xs, key, val, k)
    decreases |xs|
  {
    if |xs| > 0 {
      var n := |xs| - 1;
      GroupLookup(xs[..n], key, val);
      LookupStep(xs, key, val, Group(xs[..n], key, val), Group(xs, key, val));
    }
  }

  /** Each entry of the dict holds exactly the values of its key. */
  lemma GroupEntries<T, K(!new), V>(xs: seq<T>, key: T -> K, val: T -> V)
    ensures var r := Group(xs, key, val);
      forall i :: 0 <= i < |r| ==> r[i].values == ValuesOf(xs, key, val, r[i].key)
  {
    var r := Group(xs, key, val);
    GroupKeys(xs, key, val);
    GroupLookup(xs, key, val);
    forall i | 0 <= i < |r| ensures r[i].values == ValuesOf(xs, key, val, r[i].key) {
      LookupAt(r, i);
    }
  }

  /** `FirstIndex` on a sequence extended by one element. */
  lemma FirstIndexSnoc<T, K>(xs: seq<T>, key: T -> K, k: K)
    requires |xs| > 0
    ensures var n := |xs| - 1; var f := FirstIndex(xs[..n], key, k);
      FirstIndex(xs, key, k) == if f < n then f else if key(xs[n]) == k then n else |xs|
  {
  }

  /** Restates the order of `Keys(r)` as an order of the entries of `r`. */
  lemma OrderStep<T, K, V>(xs: seq<T>, key: T -> K, r: seq<Entry<K, V>>)
    requires forall i, j :: 0 <= i < j < |Keys(r)| ==>
      FirstIndex(xs, key, Keys(r)[i]) < FirstIndex(xs, key, Keys(r)[j])
    ensures forall i, j :: 0 <= i < j < |r| ==>
      FirstIndex(xs, key, r[i].key) < FirstIndex(xs, key, r[j].key)
  {
    forall i, j | 0 <= i < j < |r|
      ensures FirstIndex(xs, key, r[i].key) < FirstIndex(xs, key, r[j].key)
    {
      assert r[i].key == Keys(r)[i] && r[j].key == Keys(r)[j];
    }
  }

  /** Restates the order of the entries of `r` as an order of `Keys(r)`. */
  lemma OrderOfKeys<T, K, V>(xs: seq<T>, key: T -> K, r: seq<Entry<K, V>>)
    requires forall i, j :: 0 <= i < j < |r| ==>
      FirstIndex(xs, key, r[i].key) < FirstIndex(xs, key, r[j].key)
    ensures forall i, j :: 0 <= i < j < |Keys(r)| ==>
      FirstIndex(xs, key, Keys(r)[i]) < FirstIndex(xs, key, Keys(r)[j])
  {
  }

  /** The inductive step of `Group` for the lists stored under each key. */
  lemma LookupStep<T, K(!new), V>(xs: seq<T>, key: T -> K, val: T -> V, g: seq<Entry<K, V>>, r: seq<Entry<K, V>>)
    requires |xs| > 0
    requires forall k :: Lookup(g, k) == ValuesOf(xs[..|xs| - 1], key, val, k)
    requires r == Append(g, key(xs[|xs| - 1]), val(xs[|xs| - 1]))
    ensures forall k :: Lookup(r, k) == ValuesOf(xs, key, val, k)
  {
  }

  /**
   * The inductive step of `Group`, stated on key sequences: `ks` are the keys
   * before the last element of `xs` was added and `ks'` the keys after.
   */
  lemma KeysStep<T, K>(xs: seq<T>, key: T -> K, n: nat, ks: seq<K>, ks': seq<K>)
    requires n + 1 == |xs|
    requires Distinct(ks)
    requires forall k :: k in ks <==> FirstIndex(xs[..n], key, k) < n
    requires forall i, j :: 0 <= i < j < |ks| ==>
      FirstIndex(xs[..n], key, ks[i]) < FirstIndex(xs[..n], key, ks[j])
    requires ks' == if key(xs[n]) in ks then ks else ks + [key(xs[n])]
    ensures Distinct(ks')
    ensures forall k :: k in ks' <==> FirstIndex(xs, key, k) < |xs|
    ensures forall i, j :: 0 <= i < j < |ks'| ==>
      FirstIndex(xs, key, ks'[i]) < FirstIndex(xs, key, ks'[j])
  {
    var p := xs[..n];
    var kx := key(xs[n]);
    forall k ensures k in ks' <==> FirstIndex(xs, key, k) < |xs| {
      FirstIndexSnoc(xs, key, k);
    }
    forall i | 0 <= i < |ks| ensures FirstIndex(xs, key, ks[i]) == FirstIndex(p, key, ks[i]) < n {
      assert ks[i] in ks;
      FirstIndexSnoc(xs, key, ks[i]);
    }
    if kx !in ks {
      FirstIndexSnoc(xs, key, kx);
      assert FirstIndex(xs, key, kx) == n;
    }
  }

  /** With distinct keys, looking up an entry's key yields that entry's list. */
  lemma {:induction false} LookupAt<K, V>(g: seq<Entry<K, V>>, i: nat)
    requires Distinct(Keys(g))
    requires i < |g|
    ensures Lookup(g, g[i].key) == g[i].values
  {
    if i > 0 {
      assert Keys(g)[0] != Keys(g)[i];
      assert Keys(g[1..]) == Keys(g)[1..];
      LookupAt(g[1..], i - 1);
    }
  }

  /** A sequence without repetitions has as many elements as its set. */
  lemma {:induction false} DistinctCard<K>(ks: seq<K>)
    requires Distinct(ks)
    ensures |set k | k in ks| == |ks|
  {
    if |ks| > 0 {
      var rest := ks[1..];
      assert Distinct(rest);
      DistinctCard(rest);
      assert ks[0] !in rest;
      assert (set k | k in ks) == (set k | k in rest) + {ks[0]};
    }
  }
}
