/** An insertion-ordered string-keyed map, the `IndexMap` the source keeps its output keys in. */
module OrderedMaps {

  predicate Distinct(s: seq<string>) {
    forall i, j :: 0 <= i < j < |s| ==> s[i] != s[j]
  }

  /** The keys of `s` in order of first occurrence. */
  function Dedup(s: seq<string>): (r: seq<string>)
    ensures Distinct(r)
    ensures forall x :: x in r <==> x in s
  {
    if s == [] then []
    else
      var d := Dedup(s[..|s| - 1]);
      assert forall x :: x in s <==> x in s[..|s| - 1] || x == s[|s| - 1];
      if s[|s| - 1] in d then d else d + [s[|s| - 1]]
  }

  datatype OrderedMap<V> = OrderedMap(keys: seq<string>, values: map<string, V>) {

    /** Every key is listed exactly once, in the order it was first inserted. */
    ghost predicate Valid() {
      Distinct(keys) && forall k :: k in values <==> k in keys
    }

    /** `IndexMap::insert`: a new key goes to the end; an existing key keeps its position
        and takes the new value. */
    function Put(k: string, v: V): (r: OrderedMap<V>)
      requires Valid()
      ensures r.Valid()
      ensures r.values == values[k := v]
      ensures k in values ==> r.keys == keys
      ensures k !in values ==> r.keys == keys + [k]
    {
      if k in values then OrderedMap(keys, values[k := v]) else OrderedMap(keys + [k], values[k := v])
    }

    /** The values in key order (what `into_values` or iteration yields). */
    function Values(): (vs: seq<V>)
      requires Valid()
      ensures |vs| == |keys|
      ensures forall i :: 0 <= i < |keys| ==> vs[i] == values[keys[i]]
    {
      seq(|keys|, i requires 0 <= i < |keys| => values[keys[i]])
    }
  }

  function Empty<V>(): (m: OrderedMap<V>)
    ensures m.Valid() && m.keys == [] && m.values == map[]
  {
    OrderedMap([], map[])
  }

  function Firsts<V>(pairs: seq<(string, V)>): (ks: seq<string>)
    ensures |ks| == |pairs| && forall i :: 0 <= i < |pairs| ==> ks[i] == pairs[i].0
  {
    seq(|pairs|, i requires 0 <= i < |pairs| => pairs[i].0)
  }

  /** `collect::<IndexMap<_, _>>()`: the pairs inserted one after the other. */
  function FromPairs<V>(pairs: seq<(string, V)>): (m: OrderedMap<V>)
    ensures m.Valid()
  {
    if pairs == [] then Empty() else FromPairs(pairs[..|pairs| - 1]).Put(pairs[|pairs| - 1].0, pairs[|pairs| - 1].1)
  }

  /** The collected map lists each key once, at the position of its first pair. */
  lemma {:induction false} FromPairsKeys<V>(pairs: seq<(string, V)>)
    ensures FromPairs(pairs).keys == Dedup(Firsts(pairs))
  {
    if pairs != [] {
      var init := pairs[..|pairs| - 1];
      FromPairsKeys(init);
      assert Firsts(pairs)[..|pairs| - 1] == Firsts(init);
    }
  }

  /** A key is present exactly when some pair carries it, and it holds the value of the last such pair. */
  lemma {:induction false} FromPairsLastWins<V>(pairs: seq<(string, V)>)
    ensures forall k :: k in FromPairs(pairs).values <==> k in Firsts(pairs)
    ensures forall i :: 0 <= i < |pairs| && (forall j :: i < j < |pairs| ==> pairs[j].0 != pairs[i].0) ==>
              FromPairs(pairs).values[pairs[i].0] == pairs[i].1
  {
    if pairs != [] {
      var n := |pairs| - 1;
      var init := pairs[..n];
      FromPairsLastWins(init);
      assert Firsts(pairs) == Firsts(init) + [pairs[n].0];
      forall i | 0 <= i < |pairs| && (forall j :: i < j < |pairs| ==> pairs[j].0 != pairs[i].0)
        ensures FromPairs(pairs).values[pairs[i].0] == pairs[i].1
      {
        if i < n {
          assert pairs[n].0 != pairs[i].0;
          assert init[i] == pairs[i];
          assert forall j :: i < j < |init| ==> init[j].0 != init[i].0 by {
            forall j | i < j < |init| ensures init[j].0 != init[i].0 {
              assert init[j] == pairs[j];
            }
          }
        }
      }
    }
  }

  /** The pair whose value a key holds: a pair with that key, and no later pair has it. */
  lemma LastPair<V>(pairs: seq<(string, V)>, key: string) returns (k: nat)
    requires key in FromPairs(pairs).values
    ensures k < |pairs| && pairs[k] == (key, FromPairs(pairs).values[key])
    ensures forall j :: k < j < |pairs| ==> pairs[j].0 != key
  {
    FromPairsLastWins(pairs);
    var i :| 0 <= i < |pairs| && Firsts(pairs)[i] == key;
    k := LastWith(pairs, key, i);
  }

  /** The position of the last pair with `key`, at or after position `i`. */
  lemma {:induction false} LastWith<V>(pairs: seq<(string, V)>, key: string, i: nat) returns (last: nat)
    requires i < |pairs| && pairs[i].0 == key
    ensures i <= last < |pairs| && pairs[last].0 == key
    ensures forall j :: last < j < |pairs| ==> pairs[j].0 != key
    decreases |pairs| - i
  {
    if exists j :: i < j < |pairs| && pairs[j].0 == key {
      var j :| i < j < |pairs| && pairs[j].0 == key;
      last := LastWith(pairs, key, j);
    } else {
      last := i;
    }
  }
}
