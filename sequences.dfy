/**
 * Sequence vocabulary shared by the watcher and the array submission: keys
 * without repetition, flattening a list of lists (`itertools.chain`), and a
 * dict updated one key at a time.
 */
module Sequences {

  /** No element occurs twice. */
  predicate NoDup<K(==)>(s: seq<K>)
  {
    s == [] || (s[|s| - 1] !in s[..|s| - 1] && NoDup(s[..|s| - 1]))
  }

  /** Elements at distinct positions differ: the index form of NoDup. */
  lemma {:induction false} NoDupByIndex<K>(s: seq<K>)
    requires forall i, j :: 0 <= i < j < |s| ==> s[i] != s[j]
    ensures NoDup(s)
  {
    if s != [] {
      var init := s[..|s| - 1];
      assert forall i, j :: 0 <= i < j < |init| ==> init[i] != init[j];
      NoDupByIndex(init);
      assert forall i :: 0 <= i < |init| ==> init[i] != s[|s| - 1];
    }
  }

  /** The elements of every list, one list after another. */
  function Concat<T>(ss: seq<seq<T>>): (r: seq<T>)
    ensures ss == [] ==> r == []
  {
    if ss == [] then [] else ss[0] + Concat(ss[1..])
  }

  lemma {:induction false} ConcatAppend<T>(ss: seq<seq<T>>, s: seq<T>)
    ensures Concat(ss + [s]) == Concat(ss) + s
  {
    if ss != [] {
      assert (ss + [s])[1..] == ss[1..] + [s];
      ConcatAppend(ss[1..], s);
    } else {
      assert [s][1..] == [];
    }
  }

  /** `m` after `m[keys[i]] = vals[i]` for each i in turn. */
  function Assigned<K(==,!new), U>(m: map<K, U>, keys: seq<K>, vals: seq<U>): (r: map<K, U>)
    requires |keys| == |vals|
  {
    if keys == [] then m
    else Assigned(m, keys[..|keys| - 1], vals[..|vals| - 1])[keys[|keys| - 1] := vals[|vals| - 1]]
  }

  /** The assigned keys are added to the map's keys, and every other key keeps its value. */
  lemma {:induction false} AssignedKeys<K(!new), U>(m: map<K, U>, keys: seq<K>, vals: seq<U>)
    requires |keys| == |vals|
    ensures forall k :: k in Assigned(m, keys, vals) <==> k in m || k in keys
    ensures forall k :: k in m && k !in keys ==> Assigned(m, keys, vals)[k] == m[k]
  {
    if keys != [] {
      var n := |keys| - 1;
      AssignedKeys(m, keys[..n], vals[..n]);
      assert keys == keys[..n] + [keys[n]];
    }
  }

  /** With distinct keys every key ends up holding its own value. */
  lemma {:induction false} AssignedAt<K(!new), U>(m: map<K, U>, keys: seq<K>, vals: seq<U>)
    requires |keys| == |vals| && NoDup(keys)
    ensures forall i :: 0 <= i < |keys| ==> keys[i] in Assigned(m, keys, vals) && Assigned(m, keys, vals)[keys[i]] == vals[i]
  {
    if keys != [] {
      var n := |keys| - 1;
      AssignedAt(m, keys[..n], vals[..n]);
      assert forall i :: 0 <= i < n ==> keys[i] == keys[..n][i] && keys[i] != keys[n];
    }
  }

  lemma AssignedSnoc<K(!new), U>(m: map<K, U>, keys: seq<K>, vals: seq<U>, k: K, v: U)
    requires |keys| == |vals|
    ensures Assigned(m, keys + [k], vals + [v]) == Assigned(m, keys, vals)[k := v]
  {
    assert (keys + [k])[..|keys|] == keys;
    assert (vals + [v])[..|vals|] == vals;
  }
}
