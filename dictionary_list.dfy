/** The insertion-ordered keyed list of src/dictionary_list.h: a vector of elements,
    a map from each element's key (given by the `GetKey` functor) to a position in
    the vector, and the element count. Keys need not be unique; the map records the
    position of the element added last with that key. */
module Dictionaries {
  import opened Wrappers

  /** The dictionary a run of `add` calls builds for the elements `s`: every key maps
      to the position of the last element carrying it. */
  function IndexOf<T, K(==)>(s: seq<T>, keyOf: T -> K): map<K, nat>
  {
    if |s| == 0 then map[] else IndexOf(s[..|s| - 1], keyOf)[keyOf(s[|s| - 1]) := |s| - 1]
  }

  /** A key is in the dictionary exactly when some element carries it. */
  lemma {:induction false} IndexOfHasKey<T, K>(s: seq<T>, keyOf: T -> K, k: K)
    ensures k in IndexOf(s, keyOf) <==> exists i :: 0 <= i < |s| && keyOf(s[i]) == k
  {
    if |s| > 0 {
      var init := s[..|s| - 1];
      IndexOfHasKey(init, keyOf, k);
      if k in IndexOf(init, keyOf) {
        var i :| 0 <= i < |init| && keyOf(init[i]) == k;
        assert s[i] == init[i];
      }
      if exists i :: 0 <= i < |s| && keyOf(s[i]) == k {
        var i :| 0 <= i < |s| && keyOf(s[i]) == k;
        if i < |s| - 1 {
          assert init[i] == s[i];
        }
      }
    }
  }

  /** The position recorded for a key holds an element with that key, and no later
      element carries it. */
  lemma {:induction false} IndexOfIsLast<T, K>(s: seq<T>, keyOf: T -> K, k: K)
    requires k in IndexOf(s, keyOf)
    ensures IndexOf(s, keyOf)[k] < |s| && keyOf(s[IndexOf(s, keyOf)[k]]) == k
    ensures forall j :: IndexOf(s, keyOf)[k] < j < |s| ==> keyOf(s[j]) != k
  {
    var init := s[..|s| - 1];
    if keyOf(s[|s| - 1]) != k {
      IndexOfIsLast(init, keyOf, k);
      assert forall j :: 0 <= j < |init| ==> init[j] == s[j];
    }
  }

  /** The element a by-key lookup finds in `s`: the last one carrying the key, or
      `map::at`'s failure when none does. */
  function Find<T, K(==)>(s: seq<T>, keyOf: T -> K, key: K): (r: Result<T>)
    ensures r.Ok? <==> exists i :: 0 <= i < |s| && keyOf(s[i]) == key
    ensures r.Ok? ==> exists i :: 0 <= i < |s| && keyOf(s[i]) == key && r.value == s[i]
                        && forall j :: i < j < |s| ==> keyOf(s[j]) != key
  {
    IndexOfHasKey(s, keyOf, key);
    var index := IndexOf(s, keyOf);
    if key in index then
      IndexOfIsLast(s, keyOf, key);
      Ok(s[index[key]])
    else Err(FormatViolation("map::at"))
  }

  /** `items` is the vector, `dictionary` the key map and `count` the size; the
      move constructor, swap and assignment are not part of this model. */
  class DictionaryList<T, K(==)> {
    /** The `GetKey` functor. */
    const keyOf: T -> K
    var items: seq<T>
    var dictionary: map<K, nat>
    var count: nat

    ghost predicate Valid()
      reads this
    {
      count == |items| && dictionary == IndexOf(items, keyOf)
    }

    /** An empty list. */
    constructor (keyOf: T -> K)
      ensures Valid() && this.keyOf == keyOf && items == [] && count == 0
    {
      this.keyOf := keyOf;
      items := [];
      dictionary := map[];
      count := 0;
    }

    /** The copy constructor: the same elements, dictionary and count. */
    constructor Copy(that: DictionaryList<T, K>)
      requires that.Valid()
      ensures Valid() && keyOf == that.keyOf
      ensures items == that.items && dictionary == that.dictionary && count == that.count
    {
      keyOf := that.keyOf;
      items := that.items;
      dictionary := that.dictionary;
      count := that.count;
    }

    /** size(): the number of elements added. */
    function Size(): (n: nat)
      reads this
      requires Valid()
      ensures n == |items|
    {
      count
    }

    /** add: appends at position size() and points the element's key at it. */
    method Add(element: T) returns (stored: T)
      requires Valid()
      modifies this
      ensures Valid()
      ensures items == old(items) + [element] && count == old(count) + 1
      ensures dictionary == old(dictionary)[keyOf(element) := old(count)]
      ensures stored == element
      ensures Lookup(keyOf(element)) == Ok(element)
      ensures forall i :: 0 <= i < old(count) ==> At(i) == old(At(i))
    {
      var index := count;
      items := items + [element];
      dictionary := dictionary[keyOf(element) := index];
      count := count + 1;
      stored := items[index];
      assert items[..|items| - 1] == old(items);
    }

    /** has(index). */
    function HasIndex(index: nat): (b: bool)
      reads this
      requires Valid()
      ensures b <==> index < |items|
    {
      index < count
    }

    /** has(key): some added element carries the key. */
    function HasKey(key: K): (b: bool)
      reads this
      requires Valid()
      ensures b <==> exists i :: 0 <= i < |items| && keyOf(items[i]) == key
    {
      IndexOfHasKey(items, keyOf, key);
      key in dictionary
    }

    /** operator[](index): the element at a position below size(); fails otherwise. */
    function At(index: nat): (r: Result<T>)
      reads this
      requires Valid()
      ensures r.Ok? <==> index < |items|
      ensures r.Ok? ==> r.value == items[index]
    {
      if index < count then Ok(items[index])
      else Err(FormatViolation("Requested index out of bounds."))
    }

    /** operator[](key): the element added last with that key; `map::at` throws on an
        absent key. */
    function Lookup(key: K): (r: Result<T>)
      reads this
      requires Valid()
      ensures r == Find(items, keyOf, key)
    {
      if key in dictionary then
        IndexOfIsLast(items, keyOf, key);
        Ok(items[dictionary[key]])
      else Err(FormatViolation("map::at"))
    }

    /** A range-for over the list: from begin() to end(), dereferencing and
        incrementing the iterator, visits every element in insertion order. */
    method Iterate() returns (visited: seq<T>)
      requires Valid()
      ensures visited == items
    {
      visited := [];
      var index := 0;
      while index != count
        invariant index <= count && visited == items[..index]
      {
        var element := At(index);
        visited := visited + [element.value];
        index := index + 1;
      }
    }
  }
}
