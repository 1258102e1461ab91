/**
 * The completion watcher (`FileWaitThread`): a table from file name to an
 * opaque value, polled for files that have appeared. The table is a Python
 * dict, so it is kept here as its keys in insertion order beside the map.
 * One poll step is one pass of the thread's loop body; the set of paths that
 * exist at that moment is its parameter.
 */
module Watcher {
  import opened Sequences

  /** The keys, in order, whose file exists. */
  function Present<K(==,!new)>(keys: seq<K>, existing: set<K>): (r: seq<K>)
  {
    if keys == [] then []
    else Present(keys[..|keys| - 1], existing) + (if keys[|keys| - 1] in existing then [keys[|keys| - 1]] else [])
  }

  /** The keys, in order, whose file does not exist. */
  function Absent<K(==,!new)>(keys: seq<K>, existing: set<K>): (r: seq<K>)
  {
    if keys == [] then []
    else Absent(keys[..|keys| - 1], existing) + (if keys[|keys| - 1] in existing then [] else [keys[|keys| - 1]])
  }

  /** The values `m` holds for `keys`, in the keys' order; keys `m` lacks are passed over. */
  function ValuesAt<K(==,!new), V>(m: map<K, V>, keys: seq<K>): seq<V>
  {
    if keys == [] then []
    else
      var k := keys[|keys| - 1];
      ValuesAt(m, keys[..|keys| - 1]) + (if k in m then [m[k]] else [])
  }

  /** When the map holds every key, there is one value per key, each the key's own. */
  lemma {:induction false} ValuesAtAll<K(!new), V>(m: map<K, V>, keys: seq<K>)
    requires forall k :: k in keys ==> k in m
    ensures |ValuesAt(m, keys)| == |keys|
    ensures forall i :: 0 <= i < |keys| ==> ValuesAt(m, keys)[i] == m[keys[i]]
  {
    if keys != [] {
      var init := keys[..|keys| - 1];
      assert keys == init + [keys[|keys| - 1]];
      ValuesAtAll(m, init);
    }
  }

  lemma ValuesAtSnoc<K(!new), V>(m: map<K, V>, keys: seq<K>, k: K)
    requires k in m
    ensures ValuesAt(m, keys + [k]) == ValuesAt(m, keys) + [m[k]]
  {
    assert (keys + [k])[..|keys|] == keys;
  }

  /** `keys` with `k` deleted. */
  function Without<K(==)>(keys: seq<K>, k: K): seq<K>
  {
    if keys == [] then []
    else Without(keys[..|keys| - 1], k) + (if keys[|keys| - 1] == k then [] else [keys[|keys| - 1]])
  }

  /** `keys` after registering each of `added` in turn, as a dict orders its keys. */
  function Registered<K(==,!new)>(keys: seq<K>, added: seq<K>): seq<K>
  {
    if added == [] then keys
    else
      var before := Registered(keys, added[..|added| - 1]);
      var k := added[|added| - 1];
      if k in before then before else before + [k]
  }

  /** Registering keys adds exactly those keys to the table's keys. */
  lemma {:induction false} RegisteredMembers<K(!new)>(keys: seq<K>, added: seq<K>)
    ensures forall x :: x in Registered(keys, added) <==> x in keys || x in added
  {
    if added != [] {
      var n := |added| - 1;
      RegisteredMembers(keys, added[..n]);
      assert added == added[..n] + [added[n]];
    }
  }

  /** A key is polled as present exactly when it is a key whose file exists. */
  lemma {:induction false} PresentMembers<K(!new)>(keys: seq<K>, existing: set<K>)
    ensures forall x :: x in Present(keys, existing) <==> x in keys && x in existing
  {
    if keys != [] {
      var init := keys[..|keys| - 1];
      PresentMembers(init, existing);
      assert keys == init + [keys[|keys| - 1]];
    }
  }

  /** A key is kept exactly when it is a key whose file does not exist. */
  lemma {:induction false} AbsentMembers<K(!new)>(keys: seq<K>, existing: set<K>)
    ensures forall x :: x in Absent(keys, existing) <==> x in keys && x !in existing
  {
    if keys != [] {
      var init := keys[..|keys| - 1];
      AbsentMembers(init, existing);
      assert keys == init + [keys[|keys| - 1]];
    }
  }

  /** Polling neither repeats nor loses keys: the fired and the kept keys split the table. */
  lemma {:induction false} PollSplitsKeys<K(!new)>(keys: seq<K>, existing: set<K>)
    ensures multiset(Present(keys, existing)) + multiset(Absent(keys, existing)) == multiset(keys)
  {
    if keys != [] {
      var init, last := keys[..|keys| - 1], keys[|keys| - 1];
      PollSplitsKeys(init, existing);
      assert keys == init + [last];
      assert multiset(keys) == multiset(init) + multiset{last};
      if last in existing {
        assert Present(keys, existing) == Present(init, existing) + [last];
        assert Absent(keys, existing) == Absent(init, existing);
      } else {
        assert Present(keys, existing) == Present(init, existing);
        assert Absent(keys, existing) == Absent(init, existing) + [last];
      }
    }
  }

  /** Without duplicate keys, no key fires twice and no key is kept twice. */
  lemma {:induction false} PollKeepsKeysDistinct<K(!new)>(keys: seq<K>, existing: set<K>)
    requires NoDup(keys)
    ensures NoDup(Present(keys, existing)) && NoDup(Absent(keys, existing))
  {
    if keys != [] {
      var init := keys[..|keys| - 1];
      var last := keys[|keys| - 1];
      assert NoDup(init);
      PollKeepsKeysDistinct(init, existing);
      PresentMembers(init, existing);
      AbsentMembers(init, existing);
      assert last !in init;
      var present := Present(init, existing);
      var absent := Absent(init, existing);
      if last in existing {
        assert Present(keys, existing) == present + [last];
        assert (present + [last])[..|present|] == present;
        assert Absent(keys, existing) == absent + [];
        assert absent + [] == absent;
      } else {
        assert Present(keys, existing) == present + [];
        assert present + [] == present;
        assert Absent(keys, existing) == absent + [last];
        assert (absent + [last])[..|absent|] == absent;
      }
    }
  }

  /** Deleting the first remaining key of a split table leaves the rest in order. */
  lemma {:induction false} WithoutFirst<K(!new)>(front: seq<K>, k: K, back: seq<K>)
    requires k !in front && k !in back
    ensures Without(front + [k] + back, k) == front + back
  {
    if back == [] {
      assert front + [k] + back == front + [k];
      assert (front + [k])[..|front|] == front;
      WithoutAbsent(front, k);
    } else {
      var s := front + [k] + back;
      var init := back[..|back| - 1];
      assert s[..|s| - 1] == front + [k] + init;
      WithoutFirst(front, k, init);
      assert front + back == front + init + [back[|back| - 1]];
    }
  }

  lemma {:induction false} WithoutAbsent<K(!new)>(keys: seq<K>, k: K)
    requires k !in keys
    ensures Without(keys, k) == keys
  {
    if keys != [] {
      WithoutAbsent(keys[..|keys| - 1], k);
    }
  }

  /** `m` with each of `keys` deleted in turn. */
  function Deleted<K(==,!new), V>(m: map<K, V>, keys: seq<K>): map<K, V>
  {
    if keys == [] then m else Deleted(m, keys[..|keys| - 1]) - {keys[|keys| - 1]}
  }

  lemma {:induction false} DeletedMembers<K(!new), V>(m: map<K, V>, keys: seq<K>)
    ensures forall p :: p in Deleted(m, keys) <==> p in m && p !in keys
    ensures forall p :: p in Deleted(m, keys) ==> Deleted(m, keys)[p] == m[p]
  {
    if keys != [] {
      var init := keys[..|keys| - 1];
      DeletedMembers(m, init);
      assert keys == init + [keys[|keys| - 1]];
    }
  }

  /** Deleting one more key of a sequence removes it from what the earlier keys left. */
  lemma DeletedStep<K(!new), V>(m: map<K, V>, keys: seq<K>, n: nat)
    requires n < |keys|
    ensures Deleted(m, keys[..n + 1]) == Deleted(m, keys[..n]) - {keys[n]}
  {
    assert keys[..n + 1][..n] == keys[..n];
  }

  lemma DeletedKeeps<K(!new), V>(m: map<K, V>, keys: seq<K>, k: K)
    requires k in m && k !in keys
    ensures k in Deleted(m, keys) && Deleted(m, keys)[k] == m[k]
    ensures Deleted(m, keys + [k]) == Deleted(m, keys) - {k}
  {
    DeletedMembers(m, keys);
    assert (keys + [k])[..|keys|] == keys;
  }

  /** Deleting, in table order, every key whose file exists removes exactly the existing files. */
  lemma DeletedPresent<K(!new), V>(m: map<K, V>, keys: seq<K>, existing: set<K>)
    requires forall p :: p in keys <==> p in m
    ensures Deleted(m, Present(keys, existing)) == m - existing
  {
    DeletedMembers(m, Present(keys, existing));
    PresentMembers(keys, existing);
    assert Deleted(m, Present(keys, existing)).Keys == (m - existing).Keys;
  }

  /** A key of a table without duplicates is in neither the part before it nor the part after. */
  lemma {:induction false} SplitAround<K(!new)>(done: seq<K>, k: K, rest: seq<K>)
    requires NoDup(done + [k] + rest)
    ensures k !in done && k !in rest
  {
    var keys := done + [k] + rest;
    if rest == [] {
      assert keys == done + [k];
      assert keys[..|keys| - 1] == done;
    } else {
      var init := rest[..|rest| - 1];
      assert keys[..|keys| - 1] == done + [k] + init;
      SplitAround(done, k, init);
      assert rest == init + [rest[|rest| - 1]];
    }
  }

  /** The loop step for a key whose file exists: it fires, and leaves both the map and the order. */
  lemma PollFires<K(!new), V>(keys: seq<K>, done: seq<K>, rest: seq<K>, existing: set<K>, m: map<K, V>)
    requires done + rest == keys && rest != [] && rest[0] in existing
    requires NoDup(keys) && forall p :: p in keys ==> p in m
    ensures done + [rest[0]] + rest[1..] == keys
    ensures rest[0] in Deleted(m, Present(done, existing))
    ensures Deleted(m, Present(done, existing))[rest[0]] == m[rest[0]]
    ensures ValuesAt(m, Present(done + [rest[0]], existing)) == ValuesAt(m, Present(done, existing)) + [m[rest[0]]]
    ensures Deleted(m, Present(done + [rest[0]], existing)) == Deleted(m, Present(done, existing)) - {rest[0]}
    ensures Without(Absent(done, existing) + rest, rest[0]) == Absent(done + [rest[0]], existing) + rest[1..]
  {
    var k := rest[0];
    assert rest == [k] + rest[1..];
    assert done + rest == done + [k] + rest[1..];
    assert k == keys[|done|];
    SplitAround(done, k, rest[1..]);
    FiredTable(done, k, existing, m);
    FiredOrder(done, k, rest[1..], existing);
  }

  lemma FiredTable<K(!new), V>(done: seq<K>, k: K, existing: set<K>, m: map<K, V>)
    requires k !in done && k in existing && k in m
    ensures k in Deleted(m, Present(done, existing)) && Deleted(m, Present(done, existing))[k] == m[k]
    ensures ValuesAt(m, Present(done + [k], existing)) == ValuesAt(m, Present(done, existing)) + [m[k]]
    ensures Deleted(m, Present(done + [k], existing)) == Deleted(m, Present(done, existing)) - {k}
  {
    assert (done + [k])[..|done|] == done;
    var present := Present(done, existing);
    assert Present(done + [k], existing) == present + [k];
    PresentMembers(done, existing);
    DeletedKeeps(m, present, k);
    ValuesAtSnoc(m, present, k);
  }

  lemma FiredOrder<K(!new)>(done: seq<K>, k: K, rest: seq<K>, existing: set<K>)
    requires k !in done && k !in rest && k in existing
    ensures Without(Absent(done, existing) + ([k] + rest), k) == Absent(done + [k], existing) + rest
  {
    assert (done + [k])[..|done|] == done;
    var absent := Absent(done, existing);
    assert Absent(done + [k], existing) == absent + [];
    assert absent + [] == absent;
    AbsentMembers(done, existing);
    WithoutFirst(absent, k, rest);
    assert absent + ([k] + rest) == absent + [k] + rest;
  }

  /** The loop step for a key whose file does not exist: nothing fires and the key stays. */
  lemma PollKeeps<K(!new)>(keys: seq<K>, done: seq<K>, rest: seq<K>, existing: set<K>)
    requires done + rest == keys && rest != [] && rest[0] !in existing
    ensures done + [rest[0]] + rest[1..] == keys
    ensures Present(done + [rest[0]], existing) == Present(done, existing)
    ensures Absent(done, existing) + rest == Absent(done + [rest[0]], existing) + rest[1..]
  {
    var k := rest[0];
    assert rest == [k] + rest[1..];
    assert (done + [k])[..|done|] == done;
    assert Present(done, existing) + [] == Present(done, existing);
  }

  /** Once every key is polled, the table holds exactly the watched files that do not exist. */
  lemma PollDone<K(!new), V>(keys: seq<K>, existing: set<K>, m: map<K, V>)
    requires NoDup(keys)
    requires forall p :: p in keys <==> p in m
    ensures forall p :: p in Present(keys, existing) ==> p in m
    ensures NoDup(Absent(keys, existing))
    ensures forall p :: p in Absent(keys, existing) <==> p in m - existing
    ensures Deleted(m, Present(keys, existing)) == m - existing
  {
    PollKeepsKeysDistinct(keys, existing);
    AbsentMembers(keys, existing);
    PresentMembers(keys, existing);
    DeletedPresent(m, keys, existing);
  }

  /** What one pass of the loop did. */
  datatype Step<V> = Stopped | Polled(fired: seq<V>)

  class FileWaitThread<K(==,!new), V> {
    /** The keys of `waiting`, in the order the dict iterates them. */
    var order: seq<K>
    var waiting: map<K, V>
    var shutdown: bool

    ghost predicate Valid()
      reads this
    {
      && NoDup(order)
      && forall p :: p in order <==> p in waiting
    }

    constructor ()
      ensures Valid()
      ensures order == [] && waiting == map[] && !shutdown
    {
      order := [];
      waiting := map[];
      shutdown := false;
    }

    /** `stop()`: asks the loop to end; the table is left as it is. */
    method Stop()
      modifies this
      ensures shutdown
      ensures order == old(order) && waiting == old(waiting)
    {
      shutdown := true;
    }

    /** `wait(filename, value)`: watch `filename`, replacing any earlier value for it. */
    method Wait(filename: K, value: V)
      requires Valid()
      modifies this
      ensures Valid()
      ensures waiting == old(waiting)[filename := value]
      ensures order == Registered(old(order), [filename])
      ensures shutdown == old(shutdown)
    {
      assert [filename][..0] == [];
      if filename !in waiting {
        order := order + [filename];
        assert order[..|order| - 1] == old(order);
      }
      waiting := waiting[filename := value];
    }

    /**
     * One pass of `run()`: unless stopped, report the value of every watched
     * file that exists, in table order, and stop watching exactly those files.
     */
    method PollOnce(existing: set<K>) returns (step: Step<V>)
      requires Valid()
      modifies this
      ensures Valid() && shutdown == old(shutdown)
      ensures old(shutdown) ==> step == Stopped && order == old(order) && waiting == old(waiting)
      ensures !old(shutdown) ==>
        && (forall p :: p in Present(old(order), existing) ==> p in old(waiting))
        && step == Polled(ValuesAt(old(waiting), Present(old(order), existing)))
        && order == Absent(old(order), existing)
        && waiting == old(waiting) - existing
    {
      if shutdown {
        return Stopped;
      }
      ghost var keys, before := order, waiting;
      var rest, kept, left := order, order, waiting;
      ghost var done: seq<K> := [];
      var fired: seq<V> := [];
      while rest != []
        invariant done + rest == keys
        invariant fired == ValuesAt(before, Present(done, existing))
        invariant kept == Absent(done, existing) + rest
        invariant left == Deleted(before, Present(done, existing))
        modifies {}
        decreases |rest|
      {
        var filename := rest[0];
        if filename in existing {
          PollFires(keys, done, rest, existing, before);
          fired := fired + [left[filename]];
          left := left - {filename};
          kept := Without(kept, filename);
        } else {
          PollKeeps(keys, done, rest, existing);
        }
        done := done + [filename];
        rest := rest[1..];
      }
      assert done == keys by {
        assert done + rest == done;
      }
      assert kept == Absent(keys, existing) by {
        assert Absent(done, existing) + rest == Absent(done, existing);
      }
      PollDone(keys, existing, before);
      order, waiting := kept, left;
      return Polled(fired);
    }
  }

  /** After a poll step no watched file exists any more. */
  lemma PolledKeysDoNotExist<K(!new)>(keys: seq<K>, existing: set<K>)
    ensures forall p :: p in Absent(keys, existing) ==> p !in existing
  {
    AbsentMembers(keys, existing);
  }
}
