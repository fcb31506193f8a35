/** Sequences without repetition, shared by the list and timer models. */
module Seqs {
  ghost predicate NoDup<T>(s: seq<T>) {
    forall i, j :: 0 <= i < j < |s| ==> s[i] != s[j]
  }

  function Removed<T>(s: seq<T>, k: nat): seq<T>
    requires k < |s|
  {
    s[..k] + s[k + 1..]
  }

  lemma NoDupNone<T>()
    ensures NoDup<T>([])
  {
  }

  lemma NoDupAt<T>(s: seq<T>, i: nat, j: nat)
    requires NoDup(s) && i < |s|
    ensures j < |s| && i != j ==> s[i] != s[j]
  {
  }

  lemma NoDupConcat<T>(a: seq<T>, b: seq<T>)
    requires NoDup(a) && NoDup(b) && forall x :: x in a ==> x !in b
    ensures NoDup(a + b)
  {
    forall i, j | 0 <= i < j < |a + b|
      ensures (a + b)[i] != (a + b)[j]
    {
      if i < |a| <= j {
        assert (a + b)[i] in a && (a + b)[j] in b;
      }
    }
  }

  lemma NoDupSnoc<T>(s: seq<T>, x: T)
    requires NoDup(s) && x !in s
    ensures NoDup(s + [x])
  {
  }

  lemma InsertedParts<T>(s: seq<T>, x: T, k: nat)
    requires k <= |s|
    ensures var r := s[..k] + [x] + s[k..];
            && |r| == |s| + 1 && r[..k] == s[..k] && r[k] == x && r[k + 1..] == s[k..]
            && forall i :: 0 <= i < |r| && i != k ==> r[i] == s[if i < k then i else i - 1]
  {
  }

  lemma NoDupInsert<T>(s: seq<T>, x: T, k: nat)
    requires k <= |s| && x !in s && NoDup(s)
    ensures NoDup(s[..k] + [x] + s[k..])
  {
  }

  lemma RemovedAt<T>(s: seq<T>, k: nat)
    requires k < |s|
    ensures |Removed(s, k)| == |s| - 1
    ensures forall i :: 0 <= i < |s| - 1 ==> Removed(s, k)[i] == s[if i < k then i else i + 1]
  {
  }

  lemma RemovedParts<T>(s: seq<T>, k: nat)
    requires k < |s|
    ensures |Removed(s, k)| == |s| - 1 && Removed(s, k)[..k] == s[..k] && Removed(s, k)[k..] == s[k + 1..]
    ensures s[..k] + [s[k]] + s[k + 1..] == s
  {
  }

  lemma RemovedNoDup<T>(s: seq<T>, k: nat)
    requires k < |s| && NoDup(s)
    ensures NoDup(Removed(s, k)) && s[k] !in Removed(s, k)
  {
  }

  lemma RemovedMembers<T>(s: seq<T>, k: nat)
    requires NoDup(s) && k < |s|
    ensures forall x :: x in Removed(s, k) <==> x in s && x != s[k]
  {
    assert s == s[..k] + [s[k]] + s[k + 1..];
  }
}
