/** dmlist_find: the first match in a list, by key. */
module Search {
  function First<K(==)>(keys: seq<K>, key: K): (i: nat)
    ensures i <= |keys|
    ensures i < |keys| ==> keys[i] == key
    ensures forall j :: 0 <= j < i ==> keys[j] != key
  {
    if keys == [] || keys[0] == key then 0
    else
      var rest := First(keys[1..], key);
      assert forall j :: 0 < j < 1 + rest ==> keys[j] == keys[1..][j - 1];
      1 + rest
  }

  /** A search loop that stops at i has found the first match. */
  lemma FirstIs<K>(keys: seq<K>, key: K, i: nat)
    requires i <= |keys| && (i < |keys| ==> keys[i] == key)
    requires forall j :: 0 <= j < i ==> keys[j] != key
    ensures First(keys, key) == i
  {
    if First(keys, key) < i {
      assert false;
    }
  }

  /** A first match in front stays the first one. */
  lemma FirstOfConcat<K>(a: seq<K>, b: seq<K>, key: K)
    ensures First(a + b, key) == if First(a, key) < |a| then First(a, key) else |a| + First(b, key)
  {
    var i := if First(a, key) < |a| then First(a, key) else |a| + First(b, key);
    forall j | 0 <= j < i ensures (a + b)[j] != key {
      assert (a + b)[j] == if j < |a| then a[j] else b[j - |a|];
    }
    FirstIs(a + b, key, i);
  }
}
