/** The keyed store `Dictionary` and its get-or-create extension `Cache` of
    playground/shared/containers.js. `Cache` adds only `AddOrGet` to `Dictionary`, so both are the
    one class `Dictionary` here. Stored values are `Option<V>`: `None` is a stored `null` or
    `undefined`, which `Get` cannot tell apart from a missing key, just as in the source. */
module Containers {
  import opened Wrappers
  import opened Strings
  import opened JsValues

  datatype ContainerError =
    | InvalidKey      // "Key must be a string of at least one character."
    | InvalidFactory  // "Object constructor must be a function."

  /** `Dictionary.KeyValid`: a non-null string that is not all whitespace, which is what
      `key.trim().length >= 1` tests (see `KeyValidMeansTrimNonEmpty`). */
  predicate KeyValid(key: JsValue)
  {
    key.Str? && !IsBlank(key.s)
  }

  /** `KeyValid` is the source's test on the trimmed key. */
  lemma KeyValidMeansTrimNonEmpty(key: JsValue)
    ensures KeyValid(key) <==> key.Str? && |Trim(key.s)| >= 1
  {
    if key.Str? {
      var t := Trim(key.s);
    }
  }

  /** A key that is its own trim occurs at most once. (Keys with surrounding whitespace can be
      stored several times, because `Add` pushes them untrimmed while lookups search the trim.) */
  predicate TrimmedKeysUnique(keys: seq<string>)
  {
    forall i, j :: 0 <= i < j < |keys| && keys[i] == Trim(keys[i]) ==> keys[j] != keys[i]
  }

  /** Appending a key whose trim is absent keeps trimmed keys unique. */
  lemma AppendKeepsTrimmedKeysUnique(keys: seq<string>, k: string)
    requires TrimmedKeysUnique(keys) && Trim(k) !in keys
    ensures TrimmedKeysUnique(keys + [k])
  {
  }

  /** Splicing out a key that is its own trim removes its only occurrence and keeps the rest. */
  lemma RemoveAtKeepsTrimmedKeysUnique(keys: seq<string>, i: int)
    requires 0 <= i < |keys| && TrimmedKeysUnique(keys) && keys[i] == Trim(keys[i])
    ensures var rest := keys[..i] + keys[i + 1..];
      TrimmedKeysUnique(rest) && keys[i] !in rest &&
      forall j :: 0 <= j < |rest| ==> rest[j] == if j < i then keys[j] else keys[j + 1]
  {
    var rest := keys[..i] + keys[i + 1..];
    forall j | 0 <= j < |rest|
      ensures rest[j] == (if j < i then keys[j] else keys[j + 1]) && rest[j] != keys[i]
    {
      if j >= i {
        assert rest[j] == keys[j + 1];
      }
    }
  }

  class Dictionary<V(==)> {
    var keys: seq<string>
    var values: seq<Option<V>>

    /** `#keys` and `#values` are parallel, every stored key was valid, and trimmed keys are unique. */
    ghost predicate Valid()
      reads this
    {
      |keys| == |values| &&
      (forall i :: 0 <= i < |keys| ==> KeyValid(Str(keys[i]))) &&
      TrimmedKeysUnique(keys)
    }

    constructor ()
      ensures Valid() && keys == [] && values == []
    {
      keys := [];
      values := [];
    }

    /** `#getKeyIndex`: where `key.trim()` is stored, or -1 for an invalid or absent key. */
    function KeyIndex(key: JsValue): (r: int)
      reads this
      ensures -1 <= r < |keys|
      ensures r >= 0 <==> KeyValid(key) && Trim(key.s) in keys
      ensures r >= 0 ==> keys[r] == Trim(key.s) && Trim(key.s) !in keys[..r]
    {
      if KeyValid(key) then IndexOf(keys, Trim(key.s)) else -1
    }

    /** `Get`: never throws; the value stored under `key.trim()`, or null for an invalid or absent key. */
    function Get(key: JsValue): (r: Option<V>)
      reads this
      requires Valid()
      ensures !KeyValid(key) || Trim(key.s) !in keys ==> r == None
      ensures forall i :: 0 <= i < |keys| && KeyValid(key) && keys[i] == Trim(key.s) ==> r == values[i]
    {
      var i := KeyIndex(key);
      if i >= 0 then
        TrimIdempotent(key.s);
        values[i]
      else None
    }

    /** `KeyExists`, as written: the index test is `> 0`, so the entry in slot 0 is reported missing. */
    function KeyExists(key: JsValue): (r: bool)
      reads this
      ensures r <==> KeyValid(key) && Trim(key.s) in keys && keys[0] != Trim(key.s)
    {
      KeyIndex(key) > 0
    }

    /** `KeyExists` as evidently intended (`>= 0`): true exactly when `Get` finds a slot. */
    function KeyPresent(key: JsValue): (r: bool)
      reads this
      requires Valid()
      ensures r <==> KeyValid(key) && Trim(key.s) in keys
      ensures r ==> exists i :: 0 <= i < |keys| && keys[i] == Trim(key.s) && Get(key) == values[i]
      ensures !r ==> Get(key) == None
    {
      KeyIndex(key) >= 0
    }

    /** `Size`: the number of entries, which is also the number of stored values. */
    function Size(): (n: nat)
      reads this
      requires Valid()
      ensures n == |values|
    {
      |keys|
    }

    /** `Add`: throws for an invalid key and changes nothing; overwrites the slot that holds
        `key.trim()`; otherwise appends the key as given (untrimmed) and the value. */
    method Add(key: JsValue, value: Option<V>) returns (r: Outcome<ContainerError>)
      requires Valid()
      modifies this
      ensures Valid()
      ensures r.Fail? <==> !KeyValid(key)
      ensures r.Fail? ==> r.error == InvalidKey && keys == old(keys) && values == old(values)
      ensures r.Pass? && Trim(key.s) in old(keys) ==>
        keys == old(keys) && values == old(values)[old(KeyIndex(key)) := value]
      ensures r.Pass? && Trim(key.s) !in old(keys) ==>
        keys == old(keys) + [key.s] && values == old(values) + [value]
      ensures r.Pass? && key.s == Trim(key.s) ==> Get(key) == value
      ensures r.Pass? && key.s != Trim(key.s) && Trim(key.s) !in old(keys) ==>
        Size() == old(Size()) + 1 && Get(key) == None
    {
      if !KeyValid(key) {
        return Fail(InvalidKey);
      }
      var existing := KeyIndex(key);
      if existing >= 0 {
        if values[existing] != value {
          values := values[existing := value];
        }
        assert values[existing] == value;
      } else {
        AppendKeepsTrimmedKeysUnique(keys, key.s);
        keys := keys + [key.s];
        values := values + [value];
        assert keys[|keys| - 1] == key.s;
      }
      r := Pass;
    }

    /** `Remove`: deletes the pair found for `key.trim()` and keeps the order and pairing of the
        rest; an invalid or absent key changes nothing. Afterwards `Get(key)` is null. */
    method Remove(key: JsValue)
      requires Valid()
      modifies this
      ensures Valid()
      ensures old(KeyIndex(key)) < 0 ==> keys == old(keys) && values == old(values)
      ensures old(KeyIndex(key)) >= 0 ==>
        var i := old(KeyIndex(key));
        keys == old(keys[..i] + keys[i + 1..]) && values == old(values[..i] + values[i + 1..])
      ensures Get(key) == None
    {
      var i := KeyIndex(key);
      if i > -1 {
        TrimIdempotent(key.s);
        RemoveAtKeepsTrimmedKeysUnique(keys, i);
        keys := keys[..i] + keys[i + 1..];
        values := values[..i] + values[i + 1..];
      }
    }

    /** `Clear`: empties both arrays. */
    method Clear()
      requires Valid()
      modifies this
      ensures Valid() && keys == [] && values == [] && Size() == 0
    {
      keys := [];
      values := [];
    }

    /** `Cache.AddOrGet`: throws if the constructor is not a function; on a non-null hit returns
        the stored value without calling the constructor; otherwise calls it once with the key
        (`called`), adds the result (which throws for an invalid key) and returns it. */
    method AddOrGet(key: JsValue, factory: Option<JsValue -> Option<V>>)
      returns (r: Result<Option<V>, ContainerError>, called: bool)
      requires Valid()
      modifies this
      ensures Valid()
      ensures factory.None? ==>
        r == Failure(InvalidFactory) && !called && keys == old(keys) && values == old(values)
      ensures factory.Some? && old(Get(key)).Some? ==>
        r == Success(old(Get(key))) && !called && keys == old(keys) && values == old(values)
      ensures factory.Some? && old(Get(key)).None? ==> called
      ensures called && !KeyValid(key) ==>
        r == Failure(InvalidKey) && keys == old(keys) && values == old(values)
      ensures called && KeyValid(key) && Trim(key.s) in old(keys) ==>
        r == Success(factory.value(key)) &&
        keys == old(keys) && values == old(values)[old(KeyIndex(key)) := factory.value(key)]
      ensures called && KeyValid(key) && Trim(key.s) !in old(keys) ==>
        r == Success(factory.value(key)) &&
        keys == old(keys) + [key.s] && values == old(values) + [factory.value(key)]
    {
      if factory.None? {
        return Failure(InvalidFactory), false;
      }
      var existing := Get(key);
      if existing.None? {
        var value := factory.value(key);
        called := true;
        var added := Add(key, value);
        if added.Fail? {
          return Failure(added.error), called;
        }
        r := Success(value);
      } else {
        r, called := Success(existing), false;
      }
    }
  }
}

/** Call sequences on a fresh store that show the lookup rules of containers.js at work. */
module ContainerScenarios {
  import opened Wrappers
  import opened Strings
  import opened JsValues
  import opened Containers

  /** Adding a key with surrounding whitespace twice appends it twice (the lookup searches for
      the trimmed key, which is never stored), and `Get` with that key returns null. */
  method WhitespaceKeyIsStoredTwice() returns (size: nat, found: Option<int>)
    ensures size == 2 && found == None
  {
    assert Trim(" a") == Trim(" a"[1..]) == "a";
    var d := new Dictionary<int>();
    var r1 := d.Add(Str(" a"), Some(1));
    var r2 := d.Add(Str(" a"), Some(2));
    size := d.Size();
    found := d.Get(Str(" a"));
  }

  /** The entry in slot 0 is found by `Get` but `KeyExists` reports it missing; the corrected
      `KeyPresent` reports it. */
  method FirstSlotIsMissedByKeyExists() returns (reported: bool, present: bool, got: Option<int>)
    ensures !reported && present && got == Some(7)
  {
    TrimOfTrimmed("a");
    var d := new Dictionary<int>();
    var r := d.Add(Str("a"), Some(7));
    reported := d.KeyExists(Str("a"));
    present := d.KeyPresent(Str("a"));
    got := d.Get(Str("a"));
  }

  /** Two `AddOrGet` calls with the same valid key on a fresh cache: both return the constructed
      value, and the constructor runs once exactly when the key is its own trim and the value is
      not null; otherwise the second call misses and runs it again. */
  method AddOrGetTwice<V(==)>(key: string, make: JsValue -> Option<V>)
    returns (first: Result<Option<V>, ContainerError>, second: Result<Option<V>, ContainerError>, calls: nat)
    requires KeyValid(Str(key))
    ensures first == Success(make(Str(key))) && second == first
    ensures calls == if key == Trim(key) && make(Str(key)).Some? then 1 else 2
  {
    var d := new Dictionary<V>();
    var called1, called2;
    first, called1 := d.AddOrGet(Str(key), Some(make));
    assert d.keys == [key];
    second, called2 := d.AddOrGet(Str(key), Some(make));
    calls := (if called1 then 1 else 0) + (if called2 then 1 else 0);
  }
}
