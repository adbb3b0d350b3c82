/**
  * Removing a signature from a list of signatures by reference identity
  * (libsigscan_signatures_list.c). The list is a sequence of possibly-NULL
  * signature references; signatures are compared as pointers, because the
  * lists hold clones by reference.
  */
module SignaturesList {
  import opened Common
  import opened Signatures

  /**
    * What `remove_signature` leaves: the list scanned from the front, a NULL
    * element is an error, the first element that is the signature itself is
    * removed, and a list without it is returned as it is.
    */
  function RemoveFirst(list: seq<Signature?>, signature: Signature?): Result<seq<Signature?>>
  {
    if list == [] then Ok([])
    else if list[0] == null then Err(ValueMissing)
    else if list[0] == signature then Ok(list[1..])
    else
      match RemoveFirst(list[1..], signature)
      case Ok(rest) => Ok([list[0]] + rest)
      case Err(e) => Err(e)
  }

  /** True when every element of `list` before `k` is neither NULL nor the signature. */
  predicate PassedOver(list: seq<Signature?>, signature: Signature?, k: int)
    requires 0 <= k <= |list|
  {
    forall j :: 0 <= j < k ==> list[j] != null && list[j] != signature
  }

  /** Reaching the signature at `k` removes exactly that element. */
  lemma {:induction false} RemoveFirstAt(list: seq<Signature?>, signature: Signature?, k: nat)
    requires k < |list| && PassedOver(list, signature, k)
    requires list[k] != null && list[k] == signature
    ensures RemoveFirst(list, signature) == Ok(list[..k] + list[k + 1..])
  {
    if k > 0 {
      RemoveFirstAt(list[1..], signature, k - 1);
      assert [list[0]] + (list[1..][..k - 1] + list[1..][k..]) == list[..k] + list[k + 1..];
    } else {
      assert list[..0] + list[1..] == list[1..];
    }
  }

  /** Reaching a NULL element at `k` is an error. */
  lemma {:induction false} RemoveFirstNull(list: seq<Signature?>, signature: Signature?, k: nat)
    requires k < |list| && PassedOver(list, signature, k)
    requires list[k] == null
    ensures RemoveFirst(list, signature) == Err(ValueMissing)
  {
    if k > 0 {
      RemoveFirstNull(list[1..], signature, k - 1);
    }
  }

  /** A list passed over completely is returned unchanged. */
  lemma {:induction false} RemoveFirstAbsent(list: seq<Signature?>, signature: Signature?)
    requires PassedOver(list, signature, |list|)
    ensures RemoveFirst(list, signature) == Ok(list)
  {
    if list != [] {
      RemoveFirstAbsent(list[1..], signature);
      assert [list[0]] + list[1..] == list;
    }
  }

  /** The index where the walk of `remove_signature` stops: the first NULL or matching element. */
  function StopIndex(list: seq<Signature?>, signature: Signature?): (k: nat)
    ensures k <= |list| && PassedOver(list, signature, k)
    ensures k < |list| ==> list[k] == null || list[k] == signature
  {
    if list == [] || list[0] == null || list[0] == signature then 0
    else 1 + StopIndex(list[1..], signature)
  }

  /**
    * The removal outcomes, stated without recursion: an error exactly when a
    * NULL precedes every occurrence of the signature; otherwise the result
    * either equals the list (the signature is absent) or is the list without
    * its first occurrence of the signature, the others kept in order, so the
    * length drops by at most one.
    */
  lemma RemoveFirstOutcome(list: seq<Signature?>, signature: Signature?)
    ensures RemoveFirst(list, signature).Err? <==>
            exists k :: 0 <= k < |list| && list[k] == null && PassedOver(list, signature, k)
    ensures RemoveFirst(list, signature).Err? ==> RemoveFirst(list, signature).error == ValueMissing
    ensures RemoveFirst(list, signature).Ok? ==>
            || (RemoveFirst(list, signature).value == list && signature !in list)
            || (exists k :: 0 <= k < |list| && list[k] == signature && signature !in list[..k]
                  && RemoveFirst(list, signature).value == list[..k] + list[k + 1..])
    ensures RemoveFirst(list, signature).Ok? ==>
            |list| - 1 <= |RemoveFirst(list, signature).value| <= |list|
  {
    var k := StopIndex(list, signature);
    if k == |list| {
      RemoveFirstAbsent(list, signature);
      assert signature !in list by {
        forall j | 0 <= j < |list| ensures list[j] != signature { }
      }
    } else if list[k] == null {
      RemoveFirstNull(list, signature, k);
    } else {
      RemoveFirstAt(list, signature, k);
      assert signature !in list[..k];
    }
  }

  /**
    * A successful removal takes exactly one copy of the signature out of the
    * list's multiset, or nothing when the signature is absent; a list
    * without NULL elements is always walked to the end successfully.
    */
  lemma {:induction false} RemoveFirstMultiset(list: seq<Signature?>, signature: Signature?)
    ensures null !in list ==> RemoveFirst(list, signature).Ok?
    ensures RemoveFirst(list, signature).Ok? ==>
            multiset(RemoveFirst(list, signature).value) == multiset(list) - multiset{signature}
  {
    if list != [] && list[0] != null && list[0] != signature {
      RemoveFirstMultiset(list[1..], signature);
      assert list == [list[0]] + list[1..];
      assert null !in list ==> null !in list[1..];
    } else if list != [] && list[0] == signature && list[0] != null {
      assert list == [list[0]] + list[1..];
    }
  }

  /**
    * Removes the first element that is the signature itself
    * (`remove_signature`), walking the list from the front.
    */
  method RemoveSignature(list: seq<Signature?>, signature: Signature?)
    returns (r: Result<seq<Signature?>>)
    ensures r == RemoveFirst(list, signature)
  {
    var i := 0;
    while i < |list|
      invariant 0 <= i <= |list|
      invariant PassedOver(list, signature, i)
    {
      if list[i] == null {
        RemoveFirstNull(list, signature, i);
        return Err(ValueMissing);
      }
      if list[i] == signature {
        RemoveFirstAt(list, signature, i);
        return Ok(list[..i] + list[i + 1..]);
      }
      i := i + 1;
    }
    RemoveFirstAbsent(list, signature);
    r := Ok(list);
  }
}
