/**
 * Python's `dict` as the programs use it: insertion-ordered keys, `d[k] = v`
 * overwriting the value of an existing key in place (the key keeps its first
 * position) and appending a new key at the end.
 */
module PyDict {

  /** The keys in iteration order, and the value stored for each. */
  datatype DictRep<K(==), V> = DictRep(keys: seq<K>, vals: map<K, V>)

  ghost predicate Distinct<K>(s: seq<K>) {
    forall i, j :: 0 <= i < j < |s| ==> s[i] != s[j]
  }

  ghost predicate WellFormed<K, V>(d: DictRep<K, V>) {
    Distinct(d.keys) && (forall k :: k in d.vals ==> k in d.keys) && (forall k :: k in d.keys ==> k in d.vals)
  }

  /** A dict: every key listed exactly once, and exactly the keys of the mapping. */
  type Dict<K(==), V> = d: DictRep<K, V> | WellFormed(d) witness DictRep([], map[])

  /** `{}` */
  function Empty<K(==), V>(): Dict<K, V> {
    DictRep([], map[])
  }

  /** `d[k] = v` */
  function Put<K(==), V>(d: Dict<K, V>, k: K, v: V): Dict<K, V> {
    if k in d.vals then DictRep(d.keys, d.vals[k := v])
    else DictRep(d.keys + [k], d.vals[k := v])
  }

  /** Assigning a key twice leaves only the second assignment visible. */
  lemma PutPut<K, V>(d: Dict<K, V>, k: K, v: V, w: V)
    ensures Put(Put(d, k, v), k, w) == Put(d, k, w)
  {
    assert d.vals[k := v][k := w] == d.vals[k := w];
  }

  /** The keys of a sequence of pairs, in order. */
  function Firsts<K(==), V>(ps: seq<(K, V)>): (ks: seq<K>)
    ensures |ks| == |ps| && forall i :: 0 <= i < |ps| ==> ks[i] == ps[i].0
  {
    if ps == [] then [] else Firsts(ps[..|ps| - 1]) + [ps[|ps| - 1].0]
  }

  /** `{k: v for (k, v) in ps}`: the pairs assigned one after another. */
  function FromPairs<K(==), V>(ps: seq<(K, V)>): Dict<K, V> {
    if ps == [] then Empty()
    else Put(FromPairs(ps[..|ps| - 1]), ps[|ps| - 1].0, ps[|ps| - 1].1)
  }

  lemma FromPairsSnoc<K, V>(ps: seq<(K, V)>, p: (K, V))
    ensures FromPairs(ps + [p]) == Put(FromPairs(ps), p.0, p.1)
  {
    assert (ps + [p])[..|ps|] == ps;
  }

  /** Position of the first occurrence of `x` in `s`. */
  function FirstIndex<K(==)>(s: seq<K>, x: K): (i: nat)
    requires x in s
    ensures i < |s| && s[i] == x && forall j :: 0 <= j < i ==> s[j] != x
  {
    if s[0] == x then 0 else 1 + FirstIndex(s[1..], x)
  }

  /**
   * `keys` lists each element of `occ` exactly once, ordered by where it
   * first occurs in `occ`.
   */
  ghost predicate FirstOccurrenceOrder<K>(keys: seq<K>, occ: seq<K>) {
    (forall x :: x in keys ==> x in occ) && (forall x :: x in occ ==> x in keys) &&
    forall p, q :: 0 <= p < q < |keys| ==> FirstIndex(occ, keys[p]) < FirstIndex(occ, keys[q])
  }

  lemma FirstIndexSnoc<K>(s: seq<K>, x: K, y: K)
    requires x in s
    ensures FirstIndex(s + [y], x) == FirstIndex(s, x)
  {
    var i, j := FirstIndex(s + [y], x), FirstIndex(s, x);
    assert (s + [y])[j] == x;
    assert i <= j;
  }

  /** Seeing `k` once more keeps a first-occurrence order, and a new `k` goes last. */
  lemma OrderSnoc<K>(keys: seq<K>, occ: seq<K>, k: K)
    requires FirstOccurrenceOrder(keys, occ)
    ensures FirstOccurrenceOrder(if k in keys then keys else keys + [k], occ + [k])
  {
    var occ' := occ + [k];
    forall x | x in occ ensures FirstIndex(occ', x) == FirstIndex(occ, x) {
      FirstIndexSnoc(occ, x, k);
    }
    if k !in keys {
      var keys' := keys + [k];
      assert k !in occ;
      assert FirstIndex(occ', k) == |occ|;
      forall p, q | 0 <= p < q < |keys'|
        ensures FirstIndex(occ', keys'[p]) < FirstIndex(occ', keys'[q])
      {
        if q < |keys| {
          assert keys'[p] == keys[p] && keys'[q] == keys[q];
        }
      }
    }
  }

  /**
   * Python's semantics of building a dict from pairs: the keys are the
   * distinct keys of `ps` in first-occurrence order, and each key holds the
   * value of its last pair.
   */
  lemma FromPairsSemantics<K, V>(ps: seq<(K, V)>)
    ensures forall k :: k in FromPairs(ps).vals <==> k in Firsts(ps)
    ensures FirstOccurrenceOrder(FromPairs(ps).keys, Firsts(ps))
    ensures forall i :: 0 <= i < |ps| && (forall j :: i < j < |ps| ==> ps[j].0 != ps[i].0) ==>
              FromPairs(ps).vals[ps[i].0] == ps[i].1
  {
    FromPairsKeys(ps);
    forall i | 0 <= i < |ps| && (forall j :: i < j < |ps| ==> ps[j].0 != ps[i].0)
      ensures FromPairs(ps).vals[ps[i].0] == ps[i].1
    {
      FromPairsLastWins(ps, i);
    }
  }

  /** The keys of a dict built from pairs: each distinct key once, in first-occurrence order. */
  lemma {:induction false} FromPairsKeys<K, V>(ps: seq<(K, V)>)
    ensures forall k :: k in FromPairs(ps).vals <==> k in Firsts(ps)
    ensures FirstOccurrenceOrder(FromPairs(ps).keys, Firsts(ps))
  {
    if ps != [] {
      var init, last := ps[..|ps| - 1], ps[|ps| - 1];
      FromPairsKeys(init);
      var d := FromPairs(init);
      assert Firsts(ps) == Firsts(init) + [last.0];
      assert last.0 in d.vals <==> last.0 in d.keys;
      OrderSnoc(d.keys, Firsts(init), last.0);
    }
  }

  /** A pair that no later pair overrides gives its key's value. */
  lemma {:induction false} FromPairsLastWins<K, V>(ps: seq<(K, V)>, i: nat)
    requires i < |ps| && forall j :: i < j < |ps| ==> ps[j].0 != ps[i].0
    ensures ps[i].0 in FromPairs(ps).vals && FromPairs(ps).vals[ps[i].0] == ps[i].1
  {
    var init, last := ps[..|ps| - 1], ps[|ps| - 1];
    if i < |init| {
      assert ps[i] == init[i];
      assert last.0 != ps[i].0;
      assert forall j :: i < j < |init| ==> init[j].0 != init[i].0 by {
        forall j | i < j < |init| ensures init[j].0 != init[i].0 {
          assert init[j] == ps[j];
        }
      }
      FromPairsLastWins(init, i);
    }
  }
}
