/**
  Client code in the manner of the unit tests: each method drives a
  dictionary through the calls a test makes and returns what the test
  inspects, and its postcondition states what the test expects. They use
  the contracts of the Dictionary class and, for construction from a list,
  the lemma `FromPairsFirstWins` about `FromPairs`.
  `ReorderedEquality` and `MissingKeySubscripts` have no counterpart among
  the tests.
 */
module DictionaryScenarios {
  import opened Wrappers
  import opened Dictionaries

  /** Insert, look up and subscript on a string-to-int dictionary. */
  method InsertLookupSubscript() returns (emptyAtStart: bool, sizeAtStart: nat,
                                         sizeAfterInserts: nat, emptyAfterInserts: bool,
                                         hasOne: bool, hasTwo: bool, hasFour: bool,
                                         one: Option<int>, four: Option<int>,
                                         subscriptOne: int, subscriptTwo: int,
                                         subscriptFour: int, sizeAfterAssign: nat)
    ensures emptyAtStart && sizeAtStart == 0
    ensures sizeAfterInserts == 3 && !emptyAfterInserts
    ensures hasOne && hasTwo && !hasFour
    ensures one == Some(1) && four == None
    ensures subscriptOne == 1 && subscriptTwo == 2
    ensures subscriptFour == 4 && sizeAfterAssign == 4
  {
    var d := new Dictionary<string, int>();
    emptyAtStart, sizeAtStart := d.IsEmpty(), d.Size();
    d.Insert("one", 1);
    d.Insert("two", 2);
    d.Insert("three", 3);
    sizeAfterInserts, emptyAfterInserts := d.Size(), d.IsEmpty();
    hasOne, hasTwo, hasFour := d.Contains("one"), d.Contains("two"), d.Contains("four");
    one, four := d.Get("one"), d.Get("four");
    subscriptOne := d.Subscript("one", 0);
    subscriptTwo := d.Subscript("two", 0);
    d.SubscriptAssign("four", 4, 0);
    subscriptFour := d.Subscript("four", 0);
    sizeAfterAssign := d.Size();
  }

  /** Remove a present and a missing key from {one, two, three, four}, then clear. */
  method RemoveAndClear() returns (removedOne: bool, stillThere: bool, sizeAfterRemove: nat,
                                  removedMissing: bool, emptyAfterClear: bool, sizeAfterClear: nat)
    ensures removedOne && !stillThere && sizeAfterRemove == 3
    ensures !removedMissing
    ensures emptyAfterClear && sizeAfterClear == 0
  {
    var d := new Dictionary<string, int>.FromList([("one", 1), ("two", 2), ("three", 3), ("four", 4)]);
    assert d.Contains("one") && d.Size() == 4;
    removedOne := d.Remove("one");
    stillThere, sizeAfterRemove := d.Contains("one"), d.Size();
    removedMissing := d.Remove("nonexistent");
    d.Clear();
    emptyAfterClear, sizeAfterClear := d.IsEmpty(), d.Size();
  }

  /** Construction from the list {a:1, b:2, c:3}, read back through the subscript. */
  method InitializerList() returns (size: nat, a: int, b: int, c: int)
    ensures size == 3 && a == 1 && b == 2 && c == 3
  {
    var init := [("a", 1), ("b", 2), ("c", 3)];
    assert DistinctKeys(init);
    var d := new Dictionary<string, int>.FromList(init);
    size := d.Size();
    FromPairsFirstWins(init, 0);
    FromPairsFirstWins(init, 1);
    FromPairsFirstWins(init, 2);
    a := d.Subscript("a", 0);
    b := d.Subscript("b", 0);
    c := d.Subscript("c", 0);
  }

  /** Insert of a string key and a string value, then lookups by an equal key. */
  method MoveInsert() returns (hasKey: bool, value: string)
    ensures hasKey && value == "test_value"
  {
    var d := new Dictionary<string, string>();
    var key, val := "test_key", "test_value";
    d.Insert(key, val);
    hasKey := d.Contains("test_key");
    value := d.Subscript("test_key", "");
  }

  /** An int-to-string and a string-to-string dictionary. */
  method MixedTypes() returns (one: string, two: string, name: string)
    ensures one == "one" && two == "two" && name == "John"
  {
    var d1 := new Dictionary<int, string>();
    d1.Insert(1, "one");
    d1.Insert(2, "two");
    one := d1.Subscript(1, "");
    two := d1.Subscript(2, "");
    var d2 := new Dictionary<string, string>();
    d2.Insert("name", "John");
    d2.Insert("age", "30");
    name := d2.Subscript("name", "");
  }

  /** `keys()` and `values()` of {a:1, b:2, c:3}. */
  method KeysAndValues() returns (ks: seq<string>, vs: seq<int>)
    ensures |ks| == 3 && |vs| == 3
    ensures "a" in ks && "b" in ks && "c" in ks
    ensures 1 in vs && 2 in vs && 3 in vs
  {
    var d := new Dictionary<string, int>();
    d.Insert("a", 1);
    d.Insert("b", 2);
    d.Insert("c", 3);
    ks := d.Keys();
    assert d.Contains("a") && d.Contains("b") && d.Contains("c");
    ghost var from;
    vs, from := d.Values();
    assert d.Get("a") == Some(1) && d.Get("b") == Some(2) && d.Get("c") == Some(3);
  }

  /** Equal contents compare equal; a differing value makes `==` false and `!=` true. */
  method Equality() returns (eq12: bool, eq13: bool, ne13: bool)
    ensures eq12 && !eq13 && ne13
  {
    var d1 := new Dictionary<string, int>();
    d1.Insert("a", 1);
    d1.Insert("b", 2);
    var d2 := new Dictionary<string, int>();
    d2.Insert("a", 1);
    d2.Insert("b", 2);
    var d3 := new Dictionary<string, int>();
    d3.Insert("a", 1);
    d3.Insert("b", 3);
    assert d1.data == map["a" := 1, "b" := 2] == d2.data;
    assert d3.data == map["a" := 1, "b" := 3];
    eq12 := d1.Equals(d2);
    eq13 := d1.Equals(d3);
    ne13 := d1.NotEquals(d3);
  }

  /** Inserting the same pairs in the opposite order gives an equal dictionary. */
  method ReorderedEquality() returns (equal: bool, notEqual: bool)
    ensures equal && !notEqual
  {
    var d1 := new Dictionary<string, int>();
    d1.Insert("a", 1);
    d1.Insert("b", 2);
    var d2 := new Dictionary<string, int>();
    d2.Insert("b", 2);
    d2.Insert("a", 1);
    assert d1.data == map["a" := 1, "b" := 2] == d2.data;
    equal := d1.Equals(d2);
    notEqual := d1.NotEquals(d2);
  }

  /** Re-inserting a key overwrites its value and keeps the size; so does assigning through `[]`. */
  method UpdateValue() returns (first: int, afterInsert: int, size: nat, afterAssign: int)
    ensures first == 1 && afterInsert == 2 && size == 1 && afterAssign == 3
  {
    var d := new Dictionary<string, int>();
    d.Insert("key", 1);
    first := d.Subscript("key", 0);
    d.Insert("key", 2);
    afterInsert := d.Subscript("key", 0);
    size := d.Size();
    d.SubscriptAssign("key", 3, 0);
    afterAssign := d.Subscript("key", 0);
  }

  /** The mutable subscript of a missing key creates it with the default value; the read-only one fails. */
  method MissingKeySubscripts() returns (created: int, readOnly: Result<int, DictError>)
    ensures created == 0
    ensures readOnly == Err(OutOfRange("Key not found in dictionary"))
  {
    var d := new Dictionary<string, int>();
    d.Insert("a", 1);
    readOnly := d.SubscriptConst("z");
    created := d.Subscript("x", 0);
    assert d.Contains("x");
  }
}
