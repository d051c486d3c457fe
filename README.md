# Dictionary: a verified model of a generic key/value container

This project models the C++ class template `dictionary::Dictionary<Key, Value>`.
The class wraps one `std::unordered_map<Key, Value>` in a private field `data`.
It offers insert-or-overwrite, optional lookup, a membership test, removal with
a success flag, `clear`, `size` and `empty`, extraction of all keys and of all
values, an auto-creating mutable `operator[]`, a failing read-only
`operator[]`, and `==` / `!=`.

The hash table is the standard library's. What the wrapper shows its callers
is a finite map, so the Dafny class `Dictionaries.Dictionary<K, V>` keeps a
field `data: map<K, V>`:

- Methods that change the dictionary in place (`Insert`, `Remove`, `Clear`,
  `Subscript`, `SubscriptAssign`) state the new `data` in terms of `old(data)`.
  They also state the resulting size and, for the key they touch, what
  `Contains` and `Get` say afterwards.
- Queries that only read `data` are functions with `reads this`: `Get`,
  `Contains`, `Size`, `IsEmpty`, `SubscriptConst`, `Equals`, `NotEquals`.
- `Keys` and `Values` are methods with a loop, one element appended per step,
  like the `push_back` loops of the source. The loop visits the keys in an
  order the model leaves open; the contracts state set and length facts only.
- `Values` also returns a ghost sequence of the keys the values were read
  from. With it the contract says that every value occurs once per key that
  stores it.
- The read-only `operator[]` throws `std::out_of_range("Key not found in
  dictionary")`. Here it returns `Err(OutOfRange("Key not found in dictionary"))`.
- C++ default construction `Value()`, which the mutable `operator[]` uses for
  a missing key, is the explicit parameter `zero`.
- The initializer-list constructor is `FromList`, specified by the function
  `FromPairs`. `data(init)` is the initializer-list constructor of
  `std::unordered_map`. It behaves like the range constructor over
  `init.begin()` to `init.end()`. That constructor skips a pair whose key is
  already present, so the FIRST pair with a key wins. Calling `insert` once per pair would instead let the last pair win.
  `FromPairsAsInserts` shows the two agree when the keys are distinct.
  `DuplicateKeyKeepsFirst` shows an input where they differ.
- `InsertAll` is the map after one `insert` per pair, in order. It is used to
  state that insertion order does not matter to equality.

Files: `wrappers.dfy` (Option, Result), `dictionary.dfy` (the class and the
lemmas about construction and insertion), `scenarios.dfy` (client methods
that replay the checks of all seven test cases in test/source/dictionary.cpp;
`MoveInsert` replays the move-semantics test with the by-value `Insert`).
The scenarios rely on the class contracts. For construction from a list
they also call the lemma `FromPairsFirstWins`. `RemoveAndClear` starts from
the test's four-entry state, built with `FromList`, instead of continuing
the earlier scenario. `ReorderedEquality` and `MissingKeySubscripts` are
not taken from the tests: no test reorders inserts, calls the read-only
`operator[]` or reads a default-created value.

## Model

| member | source | states |
|---|---|---|
| Dictionaries.Dictionary.constructor | include/dictionary/dictionary.h:23 | the default-constructed dictionary is empty, size 0 |
| Dictionaries.Dictionary.FromList | include/dictionary/dictionary.h:134-136 | the dictionary built from a list holds exactly the list's keys; with distinct keys its size is the list's length |
| Dictionaries.FromPairs | include/dictionary/dictionary.h:134-136 | the map built from an initializer list has at most one entry per pair |
| Dictionaries.InsertAll | include/dictionary/dictionary.h:139-141 | a series of inserts keeps every original key and adds at most one entry per pair |
| Dictionaries.FromPairsKeys | include/dictionary/dictionary.h:134-136 | the keys of the constructed map are exactly the keys that occur in the initializer list |
| Dictionaries.FromPairsFirstWins | include/dictionary/dictionary.h:134-136 | a key is bound to the value of its first occurrence in the initializer list |
| Dictionaries.FromPairsSize | include/dictionary/dictionary.h:134-136 | an initializer list with distinct keys gives exactly as many entries as pairs |
| Dictionaries.FromPairsAsInserts | include/dictionary/dictionary.h:134-136 | with distinct keys, construction equals inserting the pairs one by one |
| Dictionaries.DuplicateKeyKeepsFirst | include/dictionary/dictionary.h:134-136 | with a repeated key, construction keeps the first value where repeated insertion keeps the last |
| Dictionaries.Dictionary.Insert | include/dictionary/dictionary.h:139-151 | afterwards `k` is present with value `v`; the size grows by one exactly when `k` was absent; every other key keeps its value |
| Dictionaries.InsertAllKeys | include/dictionary/dictionary.h:139-141 | after a series of inserts the keys are the original keys plus the inserted ones |
| Dictionaries.InsertAllUntouched | include/dictionary/dictionary.h:139-141 | a key no insert mentions keeps its original value |
| Dictionaries.InsertAllLastWins | include/dictionary/dictionary.h:139-141 | after a series of inserts a key holds the value of its last insert |
| Dictionaries.InsertAllUniformKey | include/dictionary/dictionary.h:139-141 | after a series of inserts, a key whose every insert carries the same value holds that value |
| Dictionaries.InsertionOrderIrrelevant | include/dictionary/dictionary.h:223-225 | inserting the pairs of a distinct-key list in any order, each any number of times, gives the same map, so `==` does not see insertion order |
| Dictionaries.Dictionary.Get | include/dictionary/dictionary.h:154-160 | returns the stored value exactly when the key is present, and nothing otherwise |
| Dictionaries.Dictionary.Contains | include/dictionary/dictionary.h:163-165 | true exactly when `Get` finds a value |
| Dictionaries.Dictionary.Remove | include/dictionary/dictionary.h:168-170 | returns true exactly when the key was present; afterwards the key is absent, the size dropped by one if it was removed, and every other entry is untouched |
| Dictionaries.Dictionary.Clear | include/dictionary/dictionary.h:173-175 | afterwards the dictionary is empty and its size is 0 |
| Dictionaries.Dictionary.Size | include/dictionary/dictionary.h:178-180 | the number of distinct stored keys |
| Dictionaries.Dictionary.IsEmpty | include/dictionary/dictionary.h:183-185 | true exactly when the size is 0 |
| Dictionaries.Dictionary.Keys | include/dictionary/dictionary.h:188-195 | `size()` keys, none repeated, each present, and every present key among them |
| Dictionaries.Dictionary.Values | include/dictionary/dictionary.h:198-205 | `size()` values, each a stored value, every stored value among them, one per stored key |
| Dictionaries.Dictionary.Subscript | include/dictionary/dictionary.h:208-210 | a present key yields its value and nothing changes; an absent key is first inserted with the default value, so the size grows by one |
| Dictionaries.Dictionary.SubscriptAssign | test/source/dictionary.cpp:155-157 | assigning through the mutable subscript leaves the same state as `insert`: the key now holds the value, and the size grows by one exactly when the key was absent |
| Dictionaries.Dictionary.SubscriptConst | include/dictionary/dictionary.h:213-220 | the stored value when the key is present; the "Key not found in dictionary" failure when it is absent |
| Dictionaries.Dictionary.Equals | include/dictionary/dictionary.h:223-225 | true exactly when both dictionaries give the same lookup result on every key either holds; equal dictionaries have equal sizes |
| Dictionaries.Dictionary.NotEquals | include/dictionary/dictionary.h:228-230 | true exactly when some key is present in only one or bound to different values |
| Dictionaries.EqualsIsEquivalence | include/dictionary/dictionary.h:223-225 | `==` is reflexive, symmetric and transitive |
| DictionaryScenarios.InsertLookupSubscript | test/source/dictionary.cpp:10-42 | empty with size 0 at the start; after three inserts the size is 3 and it is not empty; it contains `one` and `two` but not `four`; `get` finds 1 for `one` and nothing for `four`; `["one"]` is 1 and `["two"]` is 2; after assigning `["four"] = 4`, `["four"]` is 4 and the size is 4 |
| DictionaryScenarios.RemoveAndClear | test/source/dictionary.cpp:44-53 | removing a present key succeeds and leaves size 3, removing a missing key fails, and `clear` leaves it empty with size 0 |
| DictionaryScenarios.InitializerList | test/source/dictionary.cpp:56-65 | `{a:1, b:2, c:3}` has size 3, and the subscript gives 1, 2 and 3 for `a`, `b` and `c` |
| DictionaryScenarios.MoveInsert | test/source/dictionary.cpp:67-79 | after inserting `test_key` with `test_value`, `contains("test_key")` holds and `["test_key"]` is `test_value` |
| DictionaryScenarios.MixedTypes | test/source/dictionary.cpp:126-141 | an int-to-string dictionary gives `[1] == "one"` and `[2] == "two"`; a string-to-string one gives `["name"] == "John"` |
| DictionaryScenarios.KeysAndValues | test/source/dictionary.cpp:81-104 | three keys and three values, containing the inserted ones |
| DictionaryScenarios.Equality | test/source/dictionary.cpp:106-124 | two dictionaries built by the same inserts compare equal; one with a differing value makes `==` false and `!=` true |
| DictionaryScenarios.ReorderedEquality | include/dictionary/dictionary.h:223-230 | inserting `a` then `b`, or `b` then `a`, gives dictionaries that are `==` and not `!=` |
| DictionaryScenarios.UpdateValue | test/source/dictionary.cpp:143-158 | `["key"]` is 1 after the first insert; re-inserting makes it 2 and keeps size 1; assigning through `[]` makes it 3 |
| DictionaryScenarios.MissingKeySubscripts | include/dictionary/dictionary.h:208-220 | the mutable subscript of a missing key gives the default 0; the read-only one fails with "Key not found in dictionary" |

## Left out

- Hashing, buckets, rehashing, `reserve` and allocation: these belong to `std::unordered_map`. The storage is an abstract `map`.
- Iteration order of `keys()` and `values()`: the order is unspecified. The two results are not claimed to line up position by position.
- The move overloads of `insert`: by value they behave like the copy overload, so one `Insert` models all three.
- The implicit copy and move constructors and assignments: a Dafny class is a reference, and value copies are not modelled.
- The reference returned by the mutable `operator[]`: the model makes sure the key exists and returns its value. A store through the reference is modelled as `SubscriptAssign`. Aliasing and the reference's lifetime are not modelled.
- C++ default construction `Value()`: the model takes it as the parameter `zero` of each call. Successive default-creations are therefore not tied to one fixed `Value()`. Two `Subscript` calls on absent keys may pass different defaults.
- `size_t` overflow of `size()`: sizes are unbounded naturals.
- Exceptions as control flow: the one failure is a `Result` value.
- Concurrent access: there is none in the source.
