/** Duplicate-free sequences: the abstract value of every linked list in the kernel and the memory manager. */
module Lists {

  ghost predicate Distinct<T>(s: seq<T>) {
    forall i, j :: 0 <= i < j < |s| ==> s[i] != s[j]
  }

  /** s without its element at position k. */
  ghost function RemoveAt<T>(s: seq<T>, k: nat): (r: seq<T>)
    requires k < |s|
  {
    s[..k] + s[k + 1..]
  }

  /** Position of x in s, or |s| when x does not occur. */
  ghost function IndexOf<T>(s: seq<T>, x: T): (k: nat)
    ensures k <= |s|
    ensures k < |s| ==> s[k] == x
    ensures k < |s| <==> x in s
    ensures forall j :: 0 <= j < k ==> s[j] != x
  {
    if s == [] then 0 else if s[0] == x then 0 else 1 + IndexOf(s[1..], x)
  }

  /** s without the first occurrence of x. */
  ghost function Remove<T>(s: seq<T>, x: T): (r: seq<T>)
  {
    var k := IndexOf(s, x);
    if k < |s| then RemoveAt(s, k) else s
  }

  lemma RemoveAtKeepsRest<T>(s: seq<T>, k: nat)
    requires k < |s| && Distinct(s)
    ensures Distinct(RemoveAt(s, k))
    ensures forall y :: y in RemoveAt(s, k) <==> y in s && y != s[k]
  {
    var r := RemoveAt(s, k);
    forall y
      ensures y in r <==> y in s && y != s[k]
    {
      if y in s && y != s[k] {
        var i :| 0 <= i < |s| && s[i] == y;
        assert r[if i < k then i else i - 1] == y;
      }
    }
  }

  lemma RemoveKeepsRest<T>(s: seq<T>, x: T)
    requires Distinct(s)
    ensures Distinct(Remove(s, x))
    ensures forall y :: y in Remove(s, x) <==> y in s && y != x
  {
    var k := IndexOf(s, x);
    if k < |s| {
      RemoveAtKeepsRest(s, k);
    }
  }
}
