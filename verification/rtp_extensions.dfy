/** RtpExtension's choice among header extensions with the same URI: encrypted ones win
    over non-encrypted ones, and of several non-encrypted ones the last stays. */
module RtpExtensions {
  datatype Extension = Extension(uri: string, id: int, encrypt: bool)

  /** Entry `i` is encrypted, or the last of its URI with no encrypted entry before it. */
  predicate Kept(xs: seq<Extension>, i: nat)
    requires i < |xs|
  {
    || xs[i].encrypt
    || (&& (forall j :: i < j < |xs| ==> xs[j].uri != xs[i].uri)
        && (forall j :: 0 <= j < i ==> !(xs[j].encrypt && xs[j].uri == xs[i].uri)))
  }

  /** The kept ones among the first `n` entries, in order. */
  function FilteredUpTo(xs: seq<Extension>, n: nat): (r: seq<Extension>)
    requires n <= |xs|
  {
    if n == 0 then []
    else FilteredUpTo(xs, n - 1) + if Kept(xs, n - 1) then [xs[n - 1]] else []
  }

  function Filtered(xs: seq<Extension>): seq<Extension> {
    FilteredUpTo(xs, |xs|)
  }

  method FindHeaderExtensionByUri(extensions: seq<Extension>, uri: string) returns (found: int)
    ensures found == -1 <==> forall j :: 0 <= j < |extensions| ==> extensions[j].uri != uri
    ensures found != -1 ==> 0 <= found < |extensions| && extensions[found].uri == uri
    ensures found != -1 ==> forall j :: 0 <= j < found ==> extensions[j].uri != uri
  {
    for i := 0 to |extensions|
      invariant forall j :: 0 <= j < i ==> extensions[j].uri != uri
    {
      if extensions[i].uri == uri {
        return i;
      }
    }
    return -1;
  }

  method FilterDuplicateNonEncrypted(extensions: seq<Extension>) returns (filtered: seq<Extension>)
    ensures filtered == Filtered(extensions)
  {
    filtered := [];
    for i := 0 to |extensions|
      invariant filtered == FilteredUpTo(extensions, i)
    {
      var extension := extensions[i];
      if extension.encrypt {
        filtered := filtered + [extension];
        continue;
      }
      var later := FindHeaderExtensionByUri(extensions[i + 1..], extension.uri);
      if later != -1 {
        assert extensions[i + 1 + later].uri == extension.uri;
        continue;
      }
      assert forall j :: i < j < |extensions| ==> extensions[j] == extensions[i + 1..][j - i - 1];
      var earlier := FindHeaderExtensionByUri(filtered, extension.uri);
      FoundAmongFilteredIff(extensions, i);
      if earlier == -1 {
        filtered := filtered + [extension];
      }
    }
  }

  /** Each entry of the result is a kept entry of the input. */
  lemma {:induction false} Origin(xs: seq<Extension>, n: nat, i: nat) returns (k: nat)
    requires n <= |xs| && i < |FilteredUpTo(xs, n)|
    ensures k < n && Kept(xs, k) && FilteredUpTo(xs, n)[i] == xs[k]
  {
    if i < |FilteredUpTo(xs, n - 1)| {
      k := Origin(xs, n - 1, i);
    } else {
      k := n - 1;
    }
  }

  /** Each kept entry of the input is in the result. */
  lemma {:induction false} Place(xs: seq<Extension>, n: nat, k: nat) returns (i: nat)
    requires k < n <= |xs| && Kept(xs, k)
    ensures i < |FilteredUpTo(xs, n)| && FilteredUpTo(xs, n)[i] == xs[k]
  {
    if k == n - 1 {
      i := |FilteredUpTo(xs, n - 1)|;
    } else {
      i := Place(xs, n - 1, k);
    }
  }

  /** For an entry that is the last of its URI, looking through the result so far is as good
      as looking for an encrypted entry before it. */
  lemma FoundAmongFilteredIff(xs: seq<Extension>, i: nat)
    requires i < |xs| && forall j :: i < j < |xs| ==> xs[j].uri != xs[i].uri
    ensures (exists m :: 0 <= m < |FilteredUpTo(xs, i)| && FilteredUpTo(xs, i)[m].uri == xs[i].uri)
       <==> (exists j :: 0 <= j < i && xs[j].encrypt && xs[j].uri == xs[i].uri)
  {
    if m :| 0 <= m < |FilteredUpTo(xs, i)| && FilteredUpTo(xs, i)[m].uri == xs[i].uri {
      var k := Origin(xs, i, m);
      assert xs[k].encrypt;
    }
    if j :| 0 <= j < i && xs[j].encrypt && xs[j].uri == xs[i].uri {
      var m := Place(xs, i, j);
    }
  }

  /** Every encrypted entry stays. A non-encrypted one stays exactly if its URI has no
      encrypted entry at all and it is the last of its URI. */
  lemma KeptIff(xs: seq<Extension>, i: nat)
    requires i < |xs|
    ensures Kept(xs, i) <==>
      || xs[i].encrypt
      || (&& (forall j :: 0 <= j < |xs| && xs[j].uri == xs[i].uri ==> !xs[j].encrypt)
          && (forall j :: i < j < |xs| ==> xs[j].uri != xs[i].uri))
  {
  }

  /** The encrypted entries, in order. */
  function Encrypted(xs: seq<Extension>): seq<Extension> {
    if xs == [] then []
    else Encrypted(xs[..|xs| - 1]) + if xs[|xs| - 1].encrypt then [xs[|xs| - 1]] else []
  }

  /** The encrypted entries of the result are those of the input, in the same order. */
  lemma {:induction false} EncryptedAllStay(xs: seq<Extension>, n: nat)
    requires n <= |xs|
    ensures Encrypted(FilteredUpTo(xs, n)) == Encrypted(xs[..n])
  {
    if n > 0 {
      EncryptedAllStay(xs, n - 1);
      assert xs[..n][..n - 1] == xs[..n - 1];
      var r := FilteredUpTo(xs, n);
      assert xs[..n][n - 1] == xs[n - 1];
      if Kept(xs, n - 1) {
        assert r[..|r| - 1] == FilteredUpTo(xs, n - 1) && r[|r| - 1] == xs[n - 1];
      } else {
        assert r == FilteredUpTo(xs, n - 1);
      }
    }
  }

  /** Of two entries of the result, the first stood before the second in the input. */
  lemma {:induction false} OrderStays(xs: seq<Extension>, n: nat, i: nat, j: nat) returns (k: nat, l: nat)
    requires n <= |xs| && i < j < |FilteredUpTo(xs, n)|
    ensures k < l < n && FilteredUpTo(xs, n)[i] == xs[k] && FilteredUpTo(xs, n)[j] == xs[l]
  {
    if j < |FilteredUpTo(xs, n - 1)| {
      k, l := OrderStays(xs, n - 1, i, j);
    } else {
      k := Origin(xs, n - 1, i);
      l := n - 1;
    }
  }

  /** No URI is lost. */
  lemma EveryUriStays(xs: seq<Extension>, i: nat)
    requires i < |xs|
    ensures exists m :: 0 <= m < |Filtered(xs)| && Filtered(xs)[m].uri == xs[i].uri
    decreases |xs| - i
  {
    if Kept(xs, i) {
      var m := Place(xs, |xs|, i);
      assert Filtered(xs)[m].uri == xs[i].uri;
    } else if j :| i < j < |xs| && xs[j].uri == xs[i].uri {
      EveryUriStays(xs, j);
    } else {
      var j :| 0 <= j < i && xs[j].encrypt && xs[j].uri == xs[i].uri;
      var m := Place(xs, |xs|, j);
      assert Filtered(xs)[m].uri == xs[i].uri;
    }
  }

  /** Entries that share a URI in the result are all encrypted. */
  lemma {:induction false} SharedUriEncrypted(xs: seq<Extension>, n: nat, i: nat, j: nat)
    requires n <= |xs| && i < j < |FilteredUpTo(xs, n)|
    requires FilteredUpTo(xs, n)[i].uri == FilteredUpTo(xs, n)[j].uri
    ensures FilteredUpTo(xs, n)[i].encrypt && FilteredUpTo(xs, n)[j].encrypt
  {
    if j < |FilteredUpTo(xs, n - 1)| {
      SharedUriEncrypted(xs, n - 1, i, j);
    } else {
      var k := Origin(xs, n - 1, i);
    }
  }

  lemma {:induction false} AllKeptUnchanged(xs: seq<Extension>, n: nat)
    requires n <= |xs| && forall i :: 0 <= i < n ==> Kept(xs, i)
    ensures FilteredUpTo(xs, n) == xs[..n]
  {
    if n > 0 {
      AllKeptUnchanged(xs, n - 1);
    }
  }

  /** Filtering twice is filtering once. */
  lemma FilteredIdempotent(xs: seq<Extension>)
    ensures Filtered(Filtered(xs)) == Filtered(xs)
  {
    var r := Filtered(xs);
    forall i | 0 <= i < |r|
      ensures Kept(r, i)
    {
      forall j | 0 <= j < |r| && j != i && r[j].uri == r[i].uri
        ensures r[i].encrypt && r[j].encrypt
      {
        SharedUriEncrypted(xs, |xs|, if i < j then i else j, if i < j then j else i);
      }
    }
    AllKeptUnchanged(r, |r|);
  }
}
