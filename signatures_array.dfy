/**
  * Counting and removing signatures in a fixed array of possibly-NULL
  * signature references (libsigscan_signatures_array.c).
  */
module SignaturesArray {
  import opened Signatures

  /** The number of non-NULL entries of `entries`. */
  function CountSet(entries: seq<Signature?>): (n: nat)
    ensures n <= |entries|
    ensures n == |entries| <==> null !in entries
  {
    if entries == [] then 0
    else CountSet(entries[..|entries| - 1]) + (if entries[|entries| - 1] != null then 1 else 0)
  }

  /**
    * The index `remove_signature` clears, as written: the first non-NULL
    * entry that is NOT the signature passed in.
    */
  function FirstOther(entries: seq<Signature?>, signature: Signature?): (k: int)
    ensures -1 <= k < |entries|
    ensures k >= 0 ==> entries[k] != null && entries[k] != signature
    ensures forall j :: 0 <= j < |entries| && (k < 0 || j < k) ==>
              entries[j] == null || entries[j] == signature
  {
    if entries == [] then -1
    else if entries[0] != null && entries[0] != signature then 0
    else
      var k := FirstOther(entries[1..], signature);
      if k < 0 then -1 else k + 1
  }

  /** The entries after `remove_signature`: at most the one index of `FirstOther` cleared. */
  function AfterRemove(entries: seq<Signature?>, signature: Signature?): seq<Signature?>
  {
    var k := FirstOther(entries, signature);
    if k < 0 then entries else entries[k := null]
  }

  /**
    * Counts the non-NULL entries (`get_number_of_signatures`), which can
    * never exceed the number of entries.
    */
  method GetNumberOfSignatures(entries: array<Signature?>) returns (n: nat)
    ensures n == CountSet(entries[..]) && n <= entries.Length
  {
    n := 0;
    var i := 0;
    while i < entries.Length
      invariant 0 <= i <= entries.Length
      invariant n == CountSet(entries[..i])
    {
      assert entries[..i + 1][..i] == entries[..i];
      if entries[i] != null {
        n := n + 1;
      }
      i := i + 1;
    }
    assert entries[..entries.Length] == entries[..];
  }

  /**
    * Removes a signature from the array (`remove_signature`) exactly as
    * written: the comparison is inverted, so the first non-NULL entry that is
    * not the signature is cleared and the loop stops; the length never
    * changes.
    */
  method RemoveSignature(entries: array<Signature?>, signature: Signature?)
    modifies entries
    ensures entries[..] == AfterRemove(old(entries[..]), signature)
  {
    var i := 0;
    while i < entries.Length
      invariant 0 <= i <= entries.Length
      invariant entries[..] == old(entries[..])
      invariant forall j :: 0 <= j < i ==> entries[j] == null || entries[j] == signature
    {
      if entries[i] != null && entries[i] != signature {
        FirstOtherIs(entries[..], signature, i);
        entries[i] := null;
        return;
      }
      i := i + 1;
    }
    FirstOtherNone(entries[..], signature);
  }

  /** An entry that is the first non-NULL one other than the signature is the one cleared. */
  lemma {:induction false} FirstOtherIs(entries: seq<Signature?>, signature: Signature?, i: nat)
    requires i < |entries| && entries[i] != null && entries[i] != signature
    requires forall j :: 0 <= j < i ==> entries[j] == null || entries[j] == signature
    ensures FirstOther(entries, signature) == i
  {
    if i > 0 {
      FirstOtherIs(entries[1..], signature, i - 1);
    }
  }

  /** An array whose entries are all NULL or the signature has nothing to clear. */
  lemma {:induction false} FirstOtherNone(entries: seq<Signature?>, signature: Signature?)
    requires forall j :: 0 <= j < |entries| ==> entries[j] == null || entries[j] == signature
    ensures FirstOther(entries, signature) == -1
  {
    if entries != [] {
      FirstOtherNone(entries[1..], signature);
    }
  }

  /**
    * What the as-written removal does to the count: it never clears an entry
    * that is the signature itself, it clears at most one entry, and the
    * count drops by one exactly when some non-NULL entry differs from the
    * signature.
    */
  lemma {:induction false} RemoveKeepsSignature(entries: seq<Signature?>, signature: Signature?)
    ensures |AfterRemove(entries, signature)| == |entries|
    ensures forall j :: 0 <= j < |entries| && entries[j] == signature ==>
              AfterRemove(entries, signature)[j] == signature
    ensures forall i, j :: 0 <= i < j < |entries|
              && AfterRemove(entries, signature)[i] != entries[i]
              ==> AfterRemove(entries, signature)[j] == entries[j]
    ensures CountSet(AfterRemove(entries, signature)) ==
            if FirstOther(entries, signature) < 0 then CountSet(entries)
            else CountSet(entries) - 1
  {
    var k := FirstOther(entries, signature);
    if k >= 0 {
      CountSetClear(entries, k);
    }
  }

  /** Clearing one non-NULL entry lowers the count by exactly one. */
  lemma {:induction false} CountSetClear(entries: seq<Signature?>, k: nat)
    requires k < |entries| && entries[k] != null
    ensures CountSet(entries[k := null]) == CountSet(entries) - 1
  {
    var last := |entries| - 1;
    var cleared := entries[k := null];
    if k == last {
      assert cleared[..last] == entries[..last];
    } else {
      CountSetClear(entries[..last], k);
      assert cleared[..last] == entries[..last][k := null];
      assert cleared[last] == entries[last];
    }
  }

  /** The index of the first entry that is `signature`, or -1 when none is. */
  function FirstSame(entries: seq<Signature?>, signature: Signature): (k: int)
    ensures -1 <= k < |entries|
    ensures k >= 0 ==> entries[k] == signature
    ensures forall j :: 0 <= j < |entries| && (k < 0 || j < k) ==> entries[j] != signature
  {
    if entries == [] then -1
    else if entries[0] == signature then 0
    else
      var k := FirstSame(entries[1..], signature);
      if k < 0 then -1 else k + 1
  }

  /** The entries after the removal as evidently intended: the first entry that is the signature cleared. */
  function AfterRemoveIntended(entries: seq<Signature?>, signature: Signature): seq<Signature?>
  {
    var k := FirstSame(entries, signature);
    if k < 0 then entries else entries[k := null]
  }

  /**
    * Removes a signature from the array as evidently intended: the first
    * entry that is the signature itself is cleared; the length never
    * changes.
    */
  method RemoveSignatureIntended(entries: array<Signature?>, signature: Signature)
    modifies entries
    ensures entries[..] == AfterRemoveIntended(old(entries[..]), signature)
  {
    var i := 0;
    while i < entries.Length
      invariant 0 <= i <= entries.Length
      invariant entries[..] == old(entries[..])
      invariant forall j :: 0 <= j < i ==> entries[j] != signature
    {
      if entries[i] != null && entries[i] == signature {
        FirstSameIs(entries[..], signature, i);
        entries[i] := null;
        return;
      }
      i := i + 1;
    }
  }

  /** An entry that is the first one to be the signature is the one cleared. */
  lemma {:induction false} FirstSameIs(entries: seq<Signature?>, signature: Signature, i: nat)
    requires i < |entries| && entries[i] == signature
    requires forall j :: 0 <= j < i ==> entries[j] != signature
    ensures FirstSame(entries, signature) == i
  {
    if i > 0 {
      FirstSameIs(entries[1..], signature, i - 1);
    }
  }

  /**
    * What the intended removal does: one occurrence of the signature turns
    * into NULL when it is present, and the entries are left as they were
    * when it is not, so the count drops by one exactly when it is present.
    */
  lemma RemoveIntendedOutcome(entries: seq<Signature?>, signature: Signature)
    ensures signature in entries ==>
              multiset(AfterRemoveIntended(entries, signature)) ==
              multiset(entries) - multiset{signature} + multiset{null}
    ensures signature !in entries ==> AfterRemoveIntended(entries, signature) == entries
    ensures CountSet(AfterRemoveIntended(entries, signature)) ==
            if signature in entries then CountSet(entries) - 1 else CountSet(entries)
  {
    var k := FirstSame(entries, signature);
    if k >= 0 {
      CountSetClear(entries, k);
      assert entries == entries[..k] + [entries[k]] + entries[k + 1..];
      assert entries[k := null] == entries[..k] + [null] + entries[k + 1..];
    }
  }

  /**
    * The as-written removal on an array holding only the signature and one
    * other: it clears the other entry and keeps the signature, where the
    * intended removal clears the signature.
    */
  lemma RemoveInverted(signature: Signature, other: Signature)
    requires signature != other
    ensures AfterRemove([signature, other], signature) == [signature, null]
    ensures AfterRemoveIntended([signature, other], signature) == [null, other]
  {
    assert FirstOther([other], signature) == 0;
  }
}
