/**
  * The ordered-list behaviour of libcdata that the grouping index relies on,
  * stated over the sequence of keys of a list: the three-way compare
  * callbacks, the unique insert (LIBCDATA_INSERT_FLAG_UNIQUE_ENTRIES) and the
  * early-exit linear search that every `get_*` lookup of libsigscan performs.
  * libcdata itself is not part of this model; only the behaviour its callers
  * rely on is.
  */
module SortedLists {
  import opened Common

  /** LIBCDATA_COMPARE_LESS, _EQUAL and _GREATER. */
  datatype Ordering = Less | Equal | Greater

  /** The three-way comparison all compare callbacks perform on their keys. */
  function ThreeWay(a: int, b: int): (r: Ordering)
    ensures r == Less <==> a < b
    ensures r == Equal <==> a == b
    ensures r == Greater <==> a > b
  {
    if a < b then Less else if a > b then Greater else Equal
  }

  /** True when `s` is in strictly ascending order, so no key occurs twice. */
  predicate StrictlyAscending(s: seq<int>)
  {
    forall i, j :: 0 <= i < j < |s| ==> s[i] < s[j]
  }

  /** `s` with `x` inserted at position `k`. */
  function InsertAt<T>(s: seq<T>, k: nat, x: T): (r: seq<T>)
    requires k <= |s|
    ensures |r| == |s| + 1 && r[k] == x
    ensures forall i {:trigger r[i]} :: 0 <= i < k ==> r[i] == s[i]
    ensures forall i :: k < i < |r| ==> r[i] == s[i - 1]
  {
    s[..k] + [x] + s[k..]
  }

  /** Inserting adds exactly the one element. */
  lemma InsertAtMultiset<T>(s: seq<T>, k: nat, x: T)
    requires k <= |s|
    ensures multiset(InsertAt(s, k, x)) == multiset(s) + multiset{x}
  {
    assert s == s[..k] + s[k..];
  }

  /** The elements after inserting are the old ones and the inserted one. */
  lemma InsertAtMembers<T>(s: seq<T>, k: nat, x: T)
    requires k <= |s|
    ensures forall y :: y in InsertAt(s, k, x) <==> y in s || y == x
  {
    assert s == s[..k] + s[k..];
  }

  /**
    * The early-exit search of the `get_*` lookups: walk from the front,
    * stop with the index of an equal key, or give up at the first greater
    * key or at the end.
    */
  function Search(keys: seq<int>, key: int): (r: Option<nat>)
    ensures r.Some? ==> r.value < |keys| && keys[r.value] == key
  {
    if keys == [] then None
    else if keys[0] == key then Some(0)
    else if keys[0] > key then None
    else
      match Search(keys[1..], key)
      case None => None
      case Some(i) => Some(i + 1)
  }

  /** On an ascending list the early exit loses nothing: the search finds exactly the keys present. */
  lemma {:induction false} SearchFindsPresent(keys: seq<int>, key: int)
    requires StrictlyAscending(keys)
    ensures Search(keys, key).Some? <==> key in keys
  {
    if keys != [] && keys[0] != key {
      assert StrictlyAscending(keys[1..]);
      SearchFindsPresent(keys[1..], key);
      if keys[0] > key {
        assert forall i :: 0 <= i < |keys| ==> keys[i] >= keys[0];
      } else {
        assert key in keys <==> key in keys[1..] by {
          if key in keys {
            var i :| 0 <= i < |keys| && keys[i] == key;
            assert keys[1..][i - 1] == key;
          }
        }
      }
    }
  }

  /** `SearchFindsPresent` for use inside a function body, where no precondition can be assumed. */
  lemma SearchMembership(keys: seq<int>, key: int)
    ensures StrictlyAscending(keys) ==> (Search(keys, key).Some? <==> key in keys)
  {
    if StrictlyAscending(keys) {
      SearchFindsPresent(keys, key);
    }
  }

  /** Keys passed over because they are smaller do not change what the search finds. */
  lemma {:induction false} SearchSkipsSmaller(keys: seq<int>, key: int, i: nat)
    requires i <= |keys| && forall j :: 0 <= j < i ==> keys[j] < key
    ensures Search(keys, key) ==
            match Search(keys[i..], key)
            case None => None
            case Some(x) => Some(x + i)
  {
    if i > 0 {
      SearchSkipsSmaller(keys[1..], key, i - 1);
      assert keys[1..][i - 1..] == keys[i..];
    }
  }

  /**
    * The walk every `get_*` lookup performs over a list's keys: from the
    * front, stopping at an equal key (found) or at the first greater key
    * (not found).
    */
  method FindKey(keys: seq<int>, key: int) returns (r: Option<nat>)
    ensures r == Search(keys, key)
  {
    var i := 0;
    while i < |keys|
      invariant 0 <= i <= |keys|
      invariant forall j :: 0 <= j < i ==> keys[j] < key
    {
      if keys[i] == key {
        SearchSkipsSmaller(keys, key, i);
        return Some(i);
      } else if keys[i] > key {
        break;
      }
      i := i + 1;
    }
    SearchSkipsSmaller(keys, key, i);
    r := None;
  }

  /**
    * Where libcdata's unique insert puts `key`: before the first key it
    * compares less than; None when it meets an equal key first, in which
    * case nothing is inserted.
    */
  function InsertPosition(keys: seq<int>, key: int): (r: Option<nat>)
    ensures r.Some? ==> r.value <= |keys|
  {
    if keys == [] then Some(0)
    else
      match ThreeWay(key, keys[0])
      case Equal => None
      case Less => Some(0)
      case Greater =>
        match InsertPosition(keys[1..], key)
        case None => None
        case Some(i) => Some(i + 1)
  }

  /**
    * On an ascending list the unique insert refuses exactly the keys already
    * present, and otherwise inserts at the boundary between the smaller and
    * the greater keys.
    */
  lemma {:induction false} InsertPositionBoundary(keys: seq<int>, key: int)
    requires StrictlyAscending(keys)
    ensures InsertPosition(keys, key).None? <==> key in keys
    ensures InsertPosition(keys, key).Some? ==>
              var k := InsertPosition(keys, key).value;
              && (forall i :: 0 <= i < k ==> keys[i] < key)
              && (forall i :: k <= i < |keys| ==> keys[i] > key)
  {
    if keys != [] && key != keys[0] {
      assert forall i :: 0 < i < |keys| ==> keys[i] > keys[0];
      if key > keys[0] {
        var tail := keys[1..];
        assert StrictlyAscending(tail);
        InsertPositionBoundary(tail, key);
        assert key in keys <==> key in tail by {
          if key in keys {
            var i :| 0 <= i < |keys| && keys[i] == key;
            assert tail[i - 1] == key;
          }
        }
      }
    }
  }

  /**
    * The unique insert keeps an ascending list strictly ascending, refuses
    * exactly the keys already present, and adds exactly the one key.
    */
  lemma InsertKeepsAscending(keys: seq<int>, key: int)
    ensures InsertPosition(keys, key).Some? ==>
              multiset(InsertAt(keys, InsertPosition(keys, key).value, key)) ==
              multiset(keys) + multiset{key}
    ensures StrictlyAscending(keys) ==> (InsertPosition(keys, key).None? <==> key in keys)
    ensures StrictlyAscending(keys) && InsertPosition(keys, key).Some? ==>
              StrictlyAscending(InsertAt(keys, InsertPosition(keys, key).value, key))
  {
    if InsertPosition(keys, key).Some? {
      InsertAtMultiset(keys, InsertPosition(keys, key).value, key);
    }
    if StrictlyAscending(keys) {
      InsertPositionBoundary(keys, key);
      if InsertPosition(keys, key).Some? {
        var k := InsertPosition(keys, key).value;
        var r := InsertAt(keys, k, key);
        forall a, b | 0 <= a < b < |r| ensures r[a] < r[b] {
          if b < k {
          } else if b == k {
          } else if a < k {
          } else if a == k {
          } else {
            assert r[a] == keys[a - 1] && r[b] == keys[b - 1];
          }
        }
      }
    }
  }

  /** A key present in an ascending list is found at the position the search reports. */
  lemma SearchIndexUnique(keys: seq<int>, key: int, i: nat)
    requires StrictlyAscending(keys) && i < |keys| && keys[i] == key
    ensures Search(keys, key) == Some(i)
  {
    SearchFindsPresent(keys, key);
    var j := Search(keys, key).value;
    assert keys[j] == keys[i];
  }

  /**
    * After a unique insert into an ascending list, the search finds the new
    * key at its insert position and every other key where it was, shifted
    * by one past the insert position.
    */
  lemma SearchAfterInsert(keys: seq<int>, key: int, k: nat, other: int)
    requires StrictlyAscending(keys) && InsertPosition(keys, key) == Some(k)
    ensures Search(InsertAt(keys, k, key), key) == Some(k)
    ensures other != key && Search(keys, other).None? ==> Search(InsertAt(keys, k, key), other).None?
    ensures other != key && Search(keys, other).Some? ==>
            Search(InsertAt(keys, k, key), other) ==
            Some(if Search(keys, other).value < k then Search(keys, other).value else Search(keys, other).value + 1)
  {
    InsertKeepsAscending(keys, key);
    var r := InsertAt(keys, k, key);
    SearchIndexUnique(r, key, k);
    if other != key {
      SearchFindsPresent(keys, other);
      match Search(keys, other)
      case None =>
        assert other !in r by {
          forall i | 0 <= i < |r| ensures r[i] != other {
            if i < k {
              assert r[i] == keys[i];
            } else if i > k {
              assert r[i] == keys[i - 1];
            }
          }
        }
        SearchFindsPresent(r, other);
      case Some(j) =>
        SearchIndexUnique(r, other, if j < k then j else j + 1);
    }
  }

  /** In a list with ascending keys, an item's key identifies it. */
  lemma KeyIdentifies<T>(items: seq<T>, key: T -> int, x: T, y: T)
    requires StrictlyAscending(KeysOf(items, key)) && x in items && y in items && key(x) == key(y)
    ensures x == y
  {
    var i :| 0 <= i < |items| && items[i] == x;
    var j :| 0 <= j < |items| && items[j] == y;
    assert KeysOf(items, key)[i] == KeysOf(items, key)[j];
  }

  /** The keys of a list of items, in list order. */
  function KeysOf<T>(items: seq<T>, key: T -> int): (keys: seq<int>)
    ensures |keys| == |items|
    ensures forall i {:trigger keys[i]} :: 0 <= i < |items| ==> keys[i] == key(items[i])
  {
    seq(|items|, i requires 0 <= i < |items| => key(items[i]))
  }

  /** The item whose key is `k`, as the early-exit lookup finds it. */
  function Lookup<T>(items: seq<T>, key: T -> int, k: int): (r: Option<T>)
    ensures r.Some? ==> r.value in items && key(r.value) == k
    ensures StrictlyAscending(KeysOf(items, key)) ==> (r.Some? <==> k in KeysOf(items, key))
  {
    SearchMembership(KeysOf(items, key), k);
    match Search(KeysOf(items, key), k)
    case None => None
    case Some(i) => Some(items[i])
  }

  /** The lookup as the `get_*` functions perform it, walking the list. */
  method FindItem<T>(items: seq<T>, key: T -> int, k: int) returns (r: Option<T>)
    ensures r == Lookup(items, key, k)
  {
    var index := FindKey(KeysOf(items, key), k);
    r := if index.Some? then Some(items[index.value]) else None;
  }

  /**
    * The unique, ordered insert the containers use for their groups
    * (`libcdata_list_insert_value` with LIBCDATA_INSERT_FLAG_UNIQUE_ENTRIES):
    * None when an item with an equal key is met first; otherwise the list
    * with the item added. On an ascending list the insert is refused exactly
    * for a key already present, and the new list stays ascending, gains
    * exactly the new key, finds the item under its key and looks up every
    * other key as before.
    */
  method InsertItem<T>(items: seq<T>, key: T -> int, item: T) returns (r: Option<seq<T>>)
    ensures r.Some? ==> |r.value| == |items| + 1 && multiset(r.value) == multiset(items) + multiset{item}
    ensures r.Some? ==> forall y :: y in r.value <==> y in items || y == item
    ensures StrictlyAscending(KeysOf(items, key)) ==> (r.None? <==> key(item) in KeysOf(items, key))
    ensures StrictlyAscending(KeysOf(items, key)) && r.Some? ==>
              && StrictlyAscending(KeysOf(r.value, key))
              && (forall v :: v in KeysOf(r.value, key) <==> v in KeysOf(items, key) || v == key(item))
              && Lookup(r.value, key, key(item)) == Some(item)
              && (forall other :: other != key(item) ==> Lookup(r.value, key, other) == Lookup(items, key, other))
  {
    var k := InsertPosition(KeysOf(items, key), key(item));
    InsertKeepsAscending(KeysOf(items, key), key(item));
    if k.None? {
      return None;
    }
    r := Some(InsertAt(items, k.value, item));
    InsertAtMultiset(items, k.value, item);
    InsertAtMembers(items, k.value, item);
    if StrictlyAscending(KeysOf(items, key)) {
      LookupAfterInsert(items, key, k.value, item);
    }
  }

  /**
    * A unique insert of an item with a new key keeps the list ascending,
    * adds exactly that key, makes the lookup of that key find the new item
    * and leaves the lookup of every other key as it was.
    */
  lemma LookupAfterInsert<T>(items: seq<T>, key: T -> int, k: nat, item: T)
    requires StrictlyAscending(KeysOf(items, key))
    requires InsertPosition(KeysOf(items, key), key(item)) == Some(k)
    ensures StrictlyAscending(KeysOf(InsertAt(items, k, item), key))
    ensures forall v :: v in KeysOf(InsertAt(items, k, item), key) <==> v in KeysOf(items, key) || v == key(item)
    ensures Lookup(InsertAt(items, k, item), key, key(item)) == Some(item)
    ensures forall other :: other != key(item) ==> Lookup(InsertAt(items, k, item), key, other) == Lookup(items, key, other)
  {
    var keys := KeysOf(items, key);
    var r := InsertAt(items, k, item);
    assert KeysOf(r, key) == InsertAt(keys, k, key(item));
    assert StrictlyAscending(KeysOf(r, key)) by {
      InsertKeepsAscending(keys, key(item));
    }
    assert forall v :: v in KeysOf(r, key) <==> v in keys || v == key(item) by {
      InsertAtMembers(keys, k, key(item));
    }
    SearchAfterInsert(keys, key(item), k, key(item));
    forall other | other != key(item)
      ensures Lookup(r, key, other) == Lookup(items, key, other)
    {
      LookupOtherAfterInsert(items, key, k, item, other);
    }
  }

  /** The single-key step of LookupAfterInsert: a key other than the new one is looked up as before. */
  lemma LookupOtherAfterInsert<T>(items: seq<T>, key: T -> int, k: nat, item: T, other: int)
    requires StrictlyAscending(KeysOf(items, key))
    requires InsertPosition(KeysOf(items, key), key(item)) == Some(k)
    requires other != key(item)
    ensures Lookup(InsertAt(items, k, item), key, other) == Lookup(items, key, other)
  {
    var keys := KeysOf(items, key);
    var r := InsertAt(items, k, item);
    assert KeysOf(r, key) == InsertAt(keys, k, key(item));
    SearchAfterInsert(keys, key(item), k, other);
    match Search(keys, other)
    case None =>
    case Some(j) =>
      assert r[if j < k then j else j + 1] == items[j];
  }

  /**
    * Storing an updated item, with the same key, where the lookup of that
    * key found the old one keeps the keys, makes the lookup find the
    * updated item and looks up every other key as before.
    */
  lemma LookupAfterReplace<T>(items: seq<T>, key: T -> int, i: nat, item: T)
    requires Search(KeysOf(items, key), key(item)) == Some(i)
    ensures i < |items| && KeysOf(items[i := item], key) == KeysOf(items, key)
    ensures Lookup(items[i := item], key, key(item)) == Some(item)
    ensures forall other :: other != key(item) ==> Lookup(items[i := item], key, other) == Lookup(items, key, other)
  {
    assert KeysOf(items[i := item], key) == KeysOf(items, key);
    forall other | other != key(item)
      ensures Lookup(items[i := item], key, other) == Lookup(items, key, other)
    {
      match Search(KeysOf(items, key), other)
      case None =>
      case Some(j) => assert j != i;
    }
  }
}
