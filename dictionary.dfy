/**
  The generic key/value container of namespace `dictionary`.

  The C++ class keeps one private std::unordered_map; its observable
  behaviour is that of a finite map, which is what the field `data` holds
  here. Hashing, buckets and iteration order belong to the standard library
  and are not modelled.
 */
module Dictionaries {
  import opened Wrappers

  /** The failure of the read-only subscript: std::out_of_range and its message. */
  datatype DictError = OutOfRange(message: string)

  const KeyNotFoundMessage: string := "Key not found in dictionary"

  /** The keys that occur in a list of pairs. */
  ghost function KeysOf<K, V>(ps: seq<(K, V)>): set<K>
  {
    set p | p in ps :: p.0
  }

  /** No key occurs twice in a list of pairs. */
  ghost predicate DistinctKeys<K, V>(ps: seq<(K, V)>)
  {
    forall i, j :: 0 <= i < j < |ps| ==> ps[i].0 != ps[j].0
  }

  /** No element occurs twice in a sequence. */
  ghost predicate NoDuplicates<T>(s: seq<T>)
  {
    forall i, j :: 0 <= i < j < |s| ==> s[i] != s[j]
  }

  /**
    The map that std::unordered_map's range constructor builds from an
    initializer list: pairs are inserted in order and an insertion whose key
    is already present is ignored, so the FIRST pair with a given key wins.
    Written from the back: the head overrides whatever the tail produced.
   */
  function FromPairs<K(==), V>(init: seq<(K, V)>): (r: map<K, V>)
    ensures |r| <= |init|
  {
    if init == [] then map[] else FromPairs(init[1..])[init[0].0 := init[0].1]
  }

  /**
    The map left behind by one call of `insert` per pair, in order, starting
    from `m`: every insertion overwrites, so the LAST pair with a key wins.
   */
  ghost function InsertAll<K, V>(m: map<K, V>, ps: seq<(K, V)>): (r: map<K, V>)
    ensures m.Keys <= r.Keys
    ensures |r| <= |m| + |ps|
    decreases |ps|
  {
    if ps == [] then m else InsertAll(m[ps[0].0 := ps[0].1], ps[1..])
  }

  /** The keys of a non-empty list: its head's key and the keys of its tail. */
  lemma KeysOfCons<K, V>(ps: seq<(K, V)>)
    requires ps != []
    ensures KeysOf(ps) == {ps[0].0} + KeysOf(ps[1..])
  {
  }

  /** The constructed dictionary holds exactly the keys of the list. */
  lemma {:induction false} FromPairsKeys<K, V>(init: seq<(K, V)>)
    ensures FromPairs(init).Keys == KeysOf(init)
  {
    if init != [] {
      FromPairsKeys(init[1..]);
      KeysOfCons(init);
    }
  }

  /** A key is bound to the value of its first occurrence in the list. */
  lemma {:induction false} FromPairsFirstWins<K, V>(init: seq<(K, V)>, i: nat)
    requires i < |init|
    requires forall j :: 0 <= j < i ==> init[j].0 != init[i].0
    ensures init[i].0 in FromPairs(init) && FromPairs(init)[init[i].0] == init[i].1
  {
    if i > 0 {
      var tail := init[1..];
      forall j | 0 <= j < i - 1 ensures tail[j].0 != tail[i - 1].0 {
        assert tail[j] == init[j + 1];
      }
      FromPairsFirstWins(tail, i - 1);
    }
  }

  /** A list of pairs with distinct keys gives as many entries as pairs. */
  lemma {:induction false} FromPairsSize<K, V>(init: seq<(K, V)>)
    requires DistinctKeys(init)
    ensures |FromPairs(init)| == |init|
  {
    if init != [] {
      var tail := init[1..];
      assert DistinctKeys(tail) by {
        forall i, j | 0 <= i < j < |tail| ensures tail[i].0 != tail[j].0 {
          assert tail[i] == init[i + 1] && tail[j] == init[j + 1];
        }
      }
      FromPairsSize(tail);
      FromPairsKeys(tail);
      forall p | p in tail ensures p.0 != init[0].0 {
        var j :| 0 <= j < |tail| && tail[j] == p;
        assert init[j + 1] == p;
      }
    }
  }

  /** Repeated insertion holds the original keys and the keys of the list. */
  lemma {:induction false} InsertAllKeys<K, V>(m: map<K, V>, ps: seq<(K, V)>)
    ensures InsertAll(m, ps).Keys == m.Keys + KeysOf(ps)
    decreases |ps|
  {
    if ps != [] {
      InsertAllKeys(m[ps[0].0 := ps[0].1], ps[1..]);
      KeysOfCons(ps);
    }
  }

  /** A key the list does not mention keeps its original value. */
  lemma {:induction false} InsertAllUntouched<K, V>(m: map<K, V>, ps: seq<(K, V)>, k: K)
    requires k in m && k !in KeysOf(ps)
    ensures k in InsertAll(m, ps) && InsertAll(m, ps)[k] == m[k]
    decreases |ps|
  {
    if ps != [] {
      KeysOfCons(ps);
      InsertAllUntouched(m[ps[0].0 := ps[0].1], ps[1..], k);
    }
  }

  /** A key is bound to the value of its last insertion. */
  lemma {:induction false} InsertAllLastWins<K, V>(m: map<K, V>, ps: seq<(K, V)>, i: nat)
    requires i < |ps|
    requires forall j :: i < j < |ps| ==> ps[j].0 != ps[i].0
    ensures ps[i].0 in InsertAll(m, ps) && InsertAll(m, ps)[ps[i].0] == ps[i].1
    decreases |ps|
  {
    var m' := m[ps[0].0 := ps[0].1];
    var tail := ps[1..];
    if i == 0 {
      forall p | p in tail ensures p.0 != ps[0].0 {
        var j :| 0 <= j < |tail| && tail[j] == p;
        assert ps[j + 1] == p;
      }
      InsertAllUntouched(m', tail, ps[0].0);
    } else {
      forall j | i - 1 < j < |tail| ensures tail[j].0 != tail[i - 1].0 {
        assert tail[j] == ps[j + 1];
      }
      InsertAllLastWins(m', tail, i - 1);
    }
  }

  /** A key whose every pair in the list carries `v` ends up bound to `v`. */
  lemma {:induction false} InsertAllUniformKey<K, V>(m: map<K, V>, ps: seq<(K, V)>, k: K, v: V)
    requires k in KeysOf(ps)
    requires forall p :: p in ps && p.0 == k ==> p.1 == v
    ensures k in InsertAll(m, ps) && InsertAll(m, ps)[k] == v
    decreases |ps|
  {
    KeysOfCons(ps);
    var m', tail := m[ps[0].0 := ps[0].1], ps[1..];
    assert forall p :: p in tail ==> p in ps;
    if k in KeysOf(tail) {
      InsertAllUniformKey(m', tail, k, v);
    } else {
      assert ps[0] in ps;
      InsertAllUntouched(m', tail, k);
    }
  }

  /**
    Inserting the pairs of a list with distinct keys in any order, and any
    number of times each, leaves the same map behind: the equality of dictionaries does not see insertion order.
   */
  lemma InsertionOrderIrrelevant<K, V>(m: map<K, V>, ps: seq<(K, V)>, qs: seq<(K, V)>)
    requires DistinctKeys(ps)
    requires forall p :: p in ps <==> p in qs
    ensures InsertAll(m, ps) == InsertAll(m, qs)
  {
    var a, b := InsertAll(m, ps), InsertAll(m, qs);
    InsertAllKeys(m, ps);
    InsertAllKeys(m, qs);
    assert KeysOf(ps) == KeysOf(qs);
    forall k | k in a ensures k in b && a[k] == b[k] {
      if k in KeysOf(ps) {
        var p :| p in ps && p.0 == k;
        var i :| 0 <= i < |ps| && ps[i] == p;
        forall q | q in ps && q.0 == k ensures q.1 == p.1 {
          var i' :| 0 <= i' < |ps| && ps[i'] == q;
          assert i' == i;
        }
        InsertAllUniformKey(m, ps, k, p.1);
        InsertAllUniformKey(m, qs, k, p.1);
      } else {
        InsertAllUntouched(m, ps, k);
        InsertAllUntouched(m, qs, k);
      }
    }
  }

  /**
    With distinct keys, the first-wins construction agrees with inserting the
    pairs one by one (where the last wins).
   */
  lemma FromPairsAsInserts<K, V>(init: seq<(K, V)>)
    requires DistinctKeys(init)
    ensures FromPairs(init) == InsertAll(map[], init)
  {
    var a, b := FromPairs(init), InsertAll(map[], init);
    FromPairsKeys(init);
    InsertAllKeys(map[], init);
    forall k | k in a ensures k in b && a[k] == b[k] {
      var p :| p in init && p.0 == k;
      var i :| 0 <= i < |init| && init[i] == p;
      FromPairsFirstWins(init, i);
      InsertAllLastWins(map[], init, i);
    }
  }

  /** With a repeated key the two disagree: the constructor keeps the first value. */
  lemma DuplicateKeyKeepsFirst<K, V>(k: K, first: V, second: V)
    ensures FromPairs([(k, first), (k, second)]) == map[k := first]
    ensures InsertAll(map[], [(k, first), (k, second)]) == map[k := second]
  {
    var ps := [(k, first), (k, second)];
    assert ps[1..] == [(k, second)] && ps[1..][1..] == [];
    assert FromPairs(ps[1..]) == map[k := second];
    assert InsertAll(map[k := first], ps[1..]) == InsertAll(map[k := second], []);
  }

  /** Two maps that agree on every lookup are the same map. */
  lemma SameLookupsSameMap<K, V>(a: map<K, V>, b: map<K, V>)
    ensures a == b <==> forall k :: (k in a <==> k in b) && (k in a ==> a[k] == b[k])
  {
  }

  /** A key/value container with unique keys. */
  class Dictionary<K(==), V(==)> {
    var data: map<K, V>

    /** Dictionary() = default: the empty dictionary. */
    constructor ()
      ensures data == map[]
      ensures Size() == 0
    {
      data := map[];
    }

    /** Construction from an initializer list of pairs (first occurrence of a key wins). */
    constructor FromList(init: seq<(K, V)>)
      ensures data == FromPairs(init)
      ensures forall k :: Contains(k) <==> k in KeysOf(init)
      ensures DistinctKeys(init) ==> Size() == |init|
    {
      data := FromPairs(init);
      FromPairsKeys(init);
      if DistinctKeys(init) {
        FromPairsSize(init);
      }
    }

    /** Optional lookup: the stored value if `k` is present, nothing otherwise. */
    function Get(k: K): (r: Option<V>)
      reads this
      ensures r.Some? <==> k in data
      ensures r.Some? ==> r.value == data[k]
    {
      if k in data then Some(data[k]) else None
    }

    /** Membership test. */
    function Contains(k: K): (r: bool)
      reads this
      ensures r <==> Get(k).Some?
    {
      k in data
    }

    /** Number of stored associations. */
    function Size(): (n: nat)
      reads this
      ensures n == |data.Keys|
    {
      |data|
    }

    /** `empty()`: the dictionary holds no association. */
    function IsEmpty(): (r: bool)
      reads this
      ensures r <==> Size() == 0
    {
      data == map[]
    }

    /** Insert a new association or overwrite the value of an existing key. */
    method Insert(k: K, v: V)
      modifies this
      ensures data == old(data)[k := v]
      ensures Contains(k) && Get(k) == Some(v)
      ensures Size() == if old(Contains(k)) then old(Size()) else old(Size()) + 1
      ensures data - {k} == old(data) - {k}
    {
      data := data[k := v];
    }

    /** Remove the association of `k`; report whether there was one. */
    method Remove(k: K) returns (removed: bool)
      modifies this
      ensures removed <==> old(Contains(k))
      ensures data == old(data) - {k}
      ensures !Contains(k)
      ensures Size() == if removed then old(Size()) - 1 else old(Size())
    {
      // std::unordered_map::erase reports how many entries it removed
      var erased := if k in data then 1 else 0;
      data := data - {k};
      removed := erased > 0;
    }

    /** Remove every association. */
    method Clear()
      modifies this
      ensures data == map[]
      ensures IsEmpty() && Size() == 0
    {
      data := map[];
    }

    /**
      All keys, each once, in an order the model leaves open (the hash
      table's iteration order).
     */
    method Keys() returns (ks: seq<K>)
      ensures |ks| == Size()
      ensures NoDuplicates(ks)
      ensures forall i :: 0 <= i < |ks| ==> Contains(ks[i])
      ensures forall k :: Contains(k) ==> k in ks
    {
      ks := [];
      var rest := data.Keys;
      while rest != {}
        invariant rest <= data.Keys
        invariant forall i :: 0 <= i < |ks| ==> ks[i] in data && ks[i] !in rest
        invariant forall k :: k in data ==> k in rest || k in ks
        invariant NoDuplicates(ks)
        invariant |ks| + |rest| == |data|
        decreases |rest|
      {
        var k :| k in rest;
        ks := ks + [k];
        rest := rest - {k};
      }
    }

    /**
      All values, one per stored key, in an order the model leaves open.
      The ghost `ks` names the key each value was read from: an enumeration
      of the keys without repetition, so that a value stored under several
      keys appears once per key.
     */
    method Values() returns (vs: seq<V>, ghost ks: seq<K>)
      ensures |vs| == Size()
      ensures forall i :: 0 <= i < |vs| ==> vs[i] in data.Values
      ensures forall k :: Contains(k) ==> Get(k).value in vs
      ensures |ks| == |vs| && NoDuplicates(ks) && (forall k :: k in ks <==> Contains(k))
      ensures forall i :: 0 <= i < |vs| ==> Get(ks[i]) == Some(vs[i])
    {
      vs, ks := [], [];
      var rest := data.Keys;
      while rest != {}
        invariant rest <= data.Keys
        invariant |ks| == |vs|
        invariant forall i :: 0 <= i < |ks| ==> ks[i] in data && ks[i] !in rest && vs[i] == data[ks[i]]
        invariant forall k :: k in data ==> k in rest || k in ks
        invariant NoDuplicates(ks)
        invariant |ks| + |rest| == |data|
        decreases |rest|
      {
        var k :| k in rest;
        vs, ks := vs + [data[k]], ks + [k];
        rest := rest - {k};
      }
      forall k | Contains(k) ensures Get(k).value in vs {
        var i :| 0 <= i < |ks| && ks[i] == k;
        assert vs[i] == data[k];
      }
    }

    /**
      Mutable `operator[]`: make sure `k` is present, inserting it with the
      default-constructed value `zero` (C++ `Value()`) when it is absent, and
      return the value now stored under `k`.
     */
    method Subscript(k: K, zero: V) returns (v: V)
      modifies this
      ensures data == if k in old(data) then old(data) else old(data)[k := zero]
      ensures Contains(k) && Get(k) == Some(v)
      ensures old(Contains(k)) ==> v == old(Get(k)).value && Size() == old(Size())
      ensures !old(Contains(k)) ==> v == zero && Size() == old(Size()) + 1
    {
      if k !in data {
        data := data[k := zero];
      }
      v := data[k];
    }

    /** `d[k] = v`: the mutable subscript followed by a store through the returned slot. */
    method SubscriptAssign(k: K, v: V, zero: V)
      modifies this
      ensures data == old(data)[k := v]
      ensures Contains(k) && Get(k) == Some(v)
      ensures Size() == if old(Contains(k)) then old(Size()) else old(Size()) + 1
    {
      var _ := Subscript(k, zero);
      data := data[k := v];
    }

    /** Read-only `operator[]`: the stored value, or the "Key not found" failure. */
    function SubscriptConst(k: K): (r: Result<V, DictError>)
      reads this
      ensures r.Ok? <==> Contains(k)
      ensures r.Ok? ==> Get(k) == Some(r.value)
      ensures r.Err? ==> r.error == OutOfRange(KeyNotFoundMessage)
    {
      if k in data then Ok(data[k]) else Err(OutOfRange(KeyNotFoundMessage))
    }

    /** `operator==`: the same keys, each bound to equal values. */
    function Equals(other: Dictionary<K, V>): (r: bool)
      reads this, other
      ensures r <==> (forall k | k in data :: Get(k) == other.Get(k))
                     && (forall k | k in other.data :: Get(k) == other.Get(k))
      ensures r ==> Size() == other.Size()
    {
      SameLookupsSameMap(data, other.data);
      data == other.data
    }

    /** `operator!=`: some key is present in only one, or bound to different values. */
    function NotEquals(other: Dictionary<K, V>): (r: bool)
      reads this, other
      ensures r <==> (exists k | k in data :: Get(k) != other.Get(k))
                     || (exists k | k in other.data :: Get(k) != other.Get(k))
    {
      !Equals(other)
    }
  }

  /** `==` is an equivalence relation on dictionaries. */
  lemma EqualsIsEquivalence<K, V>(a: Dictionary<K, V>, b: Dictionary<K, V>, c: Dictionary<K, V>)
    ensures a.Equals(a)
    ensures a.Equals(b) ==> b.Equals(a)
    ensures a.Equals(b) && b.Equals(c) ==> a.Equals(c)
  {
  }
}
