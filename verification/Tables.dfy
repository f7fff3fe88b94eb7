/** Arrays of keyed items, read as tables: the first item of a key counts. */
module Tables {

  type Key<!T> = T -> string

  function TableOf<T>(items: seq<T>, key: Key<T>): map<string, T> {
    if items == [] then map[] else TableOf(items[1..], key)[key(items[0]) := items[0]]
  }

  ghost predicate Occurs<T>(items: seq<T>, key: Key<T>, k: string) {
    exists i :: 0 <= i < |items| && key(items[i]) == k
  }

  ghost predicate HasUniqueKeys<T>(items: seq<T>, key: Key<T>) {
    forall i, j :: 0 <= i < j < |items| ==> key(items[i]) != key(items[j])
  }

  // The first item of the key is replaced, or the item is added at the end.
  function Upserted<T>(items: seq<T>, key: Key<T>, item: T): seq<T> {
    if items == [] then [item]
    else if key(items[0]) == key(item) then [item] + items[1..]
    else [items[0]] + Upserted(items[1..], key, item)
  }

  // The first item of the key is removed.
  function Removed<T>(items: seq<T>, key: Key<T>, k: string): seq<T> {
    if items == [] then []
    else if key(items[0]) == k then items[1..]
    else [items[0]] + Removed(items[1..], key, k)
  }

  // k occurs at the front or further on.
  lemma OccursSplit<T>(items: seq<T>, key: Key<T>, k: string)
    requires items != []
    ensures Occurs(items, key, k) <==> key(items[0]) == k || Occurs(items[1..], key, k)
  {
  }

  lemma UniqueSplit<T>(items: seq<T>, key: Key<T>)
    requires items != []
    ensures HasUniqueKeys(items, key) <==> HasUniqueKeys(items[1..], key) && !Occurs(items[1..], key, key(items[0]))
  {
  }

  lemma {:induction false} TableHasKeys<T>(items: seq<T>, key: Key<T>, k: string)
    ensures k in TableOf(items, key) <==> Occurs(items, key, k)
    ensures k in TableOf(items, key) ==> TableOf(items, key)[k] in items && key(TableOf(items, key)[k]) == k
  {
    if items != [] {
      OccursSplit(items, key, k);
      TableHasKeys(items[1..], key, k);
    }
  }

  lemma {:induction false} UpsertOccurs<T>(items: seq<T>, key: Key<T>, item: T, k: string)
    ensures Occurs(Upserted(items, key, item), key, k) <==> k == key(item) || Occurs(items, key, k)
  {
    var r := Upserted(items, key, item);
    OccursSplit(r, key, k);
    if items != [] {
      OccursSplit(items, key, k);
      if key(items[0]) != key(item) {
        UpsertOccurs(items[1..], key, item, k);
      }
      assert r[1..] == if key(items[0]) == key(item) then items[1..] else Upserted(items[1..], key, item);
    }
  }

  /** An upsert sets one key of the table, and keys stay unique. */
  lemma {:induction false} UpsertRefines<T>(items: seq<T>, key: Key<T>, item: T)
    ensures TableOf(Upserted(items, key, item), key) == TableOf(items, key)[key(item) := item]
    ensures HasUniqueKeys(items, key) ==> HasUniqueKeys(Upserted(items, key, item), key)
  {
    var r := Upserted(items, key, item);
    if items != [] {
      UniqueSplit(items, key);
      UniqueSplit(r, key);
      if key(items[0]) == key(item) {
        assert r[1..] == items[1..];
      } else {
        assert r[1..] == Upserted(items[1..], key, item);
        UpsertRefines(items[1..], key, item);
        UpsertOccurs(items[1..], key, item, key(items[0]));
      }
    }
  }

  lemma {:induction false} RemoveOccurs<T>(items: seq<T>, key: Key<T>, k: string, other: string)
    requires other != k
    ensures Occurs(Removed(items, key, k), key, other) <==> Occurs(items, key, other)
  {
    if items != [] {
      OccursSplit(items, key, other);
      if key(items[0]) != k {
        var r := Removed(items, key, k);
        assert r[1..] == Removed(items[1..], key, k);
        OccursSplit(r, key, other);
        RemoveOccurs(items[1..], key, k, other);
      }
    }
  }

  /** With unique keys, a removal takes one key out of the table, and keys stay
      unique. */
  lemma {:induction false} RemoveRefines<T>(items: seq<T>, key: Key<T>, k: string)
    requires HasUniqueKeys(items, key)
    ensures TableOf(Removed(items, key, k), key) == TableOf(items, key) - {k}
    ensures HasUniqueKeys(Removed(items, key, k), key)
  {
    if items != [] {
      UniqueSplit(items, key);
      TableHasKeys(items[1..], key, key(items[0]));
      if key(items[0]) != k {
        var r := Removed(items, key, k);
        assert r[1..] == Removed(items[1..], key, k);
        UniqueSplit(r, key);
        RemoveRefines(items[1..], key, k);
        RemoveOccurs(items[1..], key, k, key(items[0]));
      }
    }
  }

  /** With repeated keys a removal uncovers the next item: the key is gone exactly
      when no second item has it. */
  lemma {:induction false} RemoveForgetsIff<T>(items: seq<T>, key: Key<T>, k: string)
    ensures k !in TableOf(Removed(items, key, k), key)
        <==> forall i, j :: 0 <= i < j < |items| && key(items[i]) == k ==> key(items[j]) != k
  {
    if items != [] {
      var rest := items[1..];
      OccursSplit(items, key, k);
      TableHasKeys(rest, key, k);
      RemoveForgetsIff(rest, key, k);
      assert forall i, j :: 0 <= i < j < |rest| ==> rest[i] == items[i + 1] && rest[j] == items[j + 1];
      assert forall j :: 0 < j < |items| ==> items[j] == rest[j - 1];
      if key(items[0]) != k {
        assert Removed(items, key, k)[1..] == Removed(rest, key, k);
      }
    }
  }

  lemma {:induction false} UpsertAt<T>(items: seq<T>, key: Key<T>, item: T, n: nat)
    requires n <= |items| && forall i :: 0 <= i < n ==> key(items[i]) != key(item)
    requires n < |items| ==> key(items[n]) == key(item)
    ensures Upserted(items, key, item) == if n < |items| then items[n := item] else items + [item]
  {
    if n > 0 {
      UpsertAt(items[1..], key, item, n - 1);
    }
  }

  lemma {:induction false} RemoveAt<T>(items: seq<T>, key: Key<T>, k: string, n: nat)
    requires n <= |items| && forall i :: 0 <= i < n ==> key(items[i]) != k
    requires n < |items| ==> key(items[n]) == k
    ensures Removed(items, key, k) == if n < |items| then items[..n] + items[n + 1..] else items
  {
    if n > 0 {
      RemoveAt(items[1..], key, k, n - 1);
    }
  }

  /** The position of the first item of the key, or the length. */
  method FindKey<T>(items: seq<T>, key: Key<T>, k: string) returns (n: nat)
    ensures n <= |items| && (forall i :: 0 <= i < n ==> key(items[i]) != k)
    ensures n < |items| ==> key(items[n]) == k
  {
    n := 0;
    while n < |items| && key(items[n]) != k
      invariant n <= |items| && forall i :: 0 <= i < n ==> key(items[i]) != k
    {
      n := n + 1;
    }
  }

  lemma {:induction false} FirstIsTable<T>(items: seq<T>, key: Key<T>, n: nat)
    requires n < |items| && forall i :: 0 <= i < n ==> key(items[i]) != key(items[n])
    ensures key(items[n]) in TableOf(items, key) && TableOf(items, key)[key(items[n])] == items[n]
  {
    if n > 0 {
      FirstIsTable(items[1..], key, n - 1);
    }
  }

  // Every item is the table's own, and none is missing.
  lemma {:induction false} UniqueItemsAreTable<T>(items: seq<T>, key: Key<T>, x: T)
    requires HasUniqueKeys(items, key)
    ensures x in items <==> key(x) in TableOf(items, key) && TableOf(items, key)[key(x)] == x
  {
    if i :| 0 <= i < |items| && items[i] == x {
      FirstIsTable(items, key, i);
    }
    TableHasKeys(items, key, key(x));
  }
}
