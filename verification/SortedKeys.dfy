/** Distinct numbers as ascending lists. */
module SortedKeys {

  ghost predicate Ascending(keys: seq<int>) {
    forall i, j :: 0 <= i < j < |keys| ==> keys[i] < keys[j]
  }

  function Insert(keys: seq<int>, key: int): seq<int> {
    if keys == [] || key < keys[0] then [key] + keys
    else [keys[0]] + Insert(keys[1..], key)
  }

  lemma {:induction false} InsertAscending(keys: seq<int>, key: int)
    requires Ascending(keys) && key !in keys
    ensures Ascending(Insert(keys, key))
    ensures forall k :: k in Insert(keys, key) <==> k in keys || k == key
  {
    if keys != [] && keys[0] <= key {
      assert keys == [keys[0]] + keys[1..];
      InsertAscending(keys[1..], key);
      var tail := Insert(keys[1..], key);
      forall j | 0 <= j < |tail| ensures keys[0] < tail[j] {
        assert tail[j] in tail;
      }
    } else {
      assert forall j :: 0 < j < |keys| ==> keys[0] < keys[j];
    }
  }

  /** Two ascending lists of the same numbers are the same list. */
  lemma {:induction false} AscendingUnique(a: seq<int>, b: seq<int>)
    requires Ascending(a) && Ascending(b) && forall k :: k in a <==> k in b
    ensures a == b
  {
    var first := if b == [] then 0 else b[0];
    assert b != [] ==> first in b;
    if a != [] {
      assert a[0] in a;
      assert a[0] == b[0];
      forall k ensures k in a[1..] <==> k in b[1..] {
        TailMember(a, k);
        TailMember(b, k);
      }
      AscendingUnique(a[1..], b[1..]);
      assert a == [a[0]] + a[1..] && b == [b[0]] + b[1..];
    }
  }

  lemma TailMember(a: seq<int>, k: int)
    requires a != [] && Ascending(a)
    ensures k in a[1..] <==> k in a && k != a[0]
  {
    assert a == [a[0]] + a[1..];
  }

  ghost predicate Distinct(list: seq<int>) {
    forall i, j :: 0 <= i < j < |list| ==> list[i] != list[j]
  }

  method Sort(list: seq<int>) returns (sorted: seq<int>)
    requires Distinct(list)
    ensures Ascending(sorted) && forall k :: k in sorted <==> k in list
  {
    sorted := [];
    for i := 0 to |list|
      invariant Ascending(sorted) && forall k :: k in sorted <==> k in list[..i]
    {
      assert list[..i + 1] == list[..i] + [list[i]];
      InsertAscending(sorted, list[i]);
      sorted := Insert(sorted, list[i]);
    }
    assert list[..|list|] == list;
  }
}
