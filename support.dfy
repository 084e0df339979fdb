/** Library operations the core relies on: Array.IndexOf, Array.Sort followed by
    Array.Reverse, and running sums of doubles. */
module Support {

  /** A value that may be missing: a null reference or an early return in the source. */
  datatype Option<T> = None | Some(value: T)

  /** Sum of a sequence, accumulated left to right as the source's loops do. */
  function Sum(s: seq<real>): real
  {
    if |s| == 0 then 0.0 else Sum(s[..|s| - 1]) + s[|s| - 1]
  }

  /** Array.IndexOf: the first position holding x, or -1 when there is none. */
  function IndexOf<T(==)>(s: seq<T>, x: T): (r: int)
    ensures -1 <= r < |s|
    ensures r == -1 <==> x !in s
    ensures 0 <= r ==> s[r] == x && forall j :: 0 <= j < r ==> s[j] != x
  {
    if |s| == 0 then -1
    else if s[0] == x then 0
    else
      var k := IndexOf(s[1..], x);
      if k == -1 then -1 else k + 1
  }

  ghost predicate SortedDesc(s: seq<real>)
  {
    forall i, j :: 0 <= i < j < |s| ==> s[i] >= s[j]
  }

  /** Inserts x into a descending sequence. */
  function InsertDesc(x: real, s: seq<real>): (r: seq<real>)
    requires SortedDesc(s)
    ensures |r| == |s| + 1
    ensures r[0] == x || (|s| > 0 && r[0] == s[0])
    ensures SortedDesc(r)
    ensures multiset(r) == multiset(s) + multiset{x}
  {
    if |s| == 0 then [x]
    else if x >= s[0] then [x] + s
    else
      assert s == [s[0]] + s[1..];
      [s[0]] + InsertDesc(x, s[1..])
  }

  /** Array.Sort (ascending) followed by Array.Reverse: the values in descending order. */
  function SortDesc(s: seq<real>): (r: seq<real>)
    ensures SortedDesc(r)
    ensures multiset(r) == multiset(s)
    ensures |r| == |s|
  {
    if |s| == 0 then []
    else
      assert s == [s[0]] + s[1..];
      InsertDesc(s[0], SortDesc(s[1..]))
  }

  /** Every entry of the sorted copy is one of the original values. */
  lemma SortDescMember(s: seq<real>, k: nat)
    requires k < |s|
    ensures SortDesc(s)[k] in s
  {
    var r := SortDesc(s);
    assert r[k] in multiset(r);
  }

  /** The head of the sorted copy is a maximum of the original values. */
  lemma SortDescHeadIsMax(s: seq<real>)
    requires |s| > 0
    ensures SortDesc(s)[0] in s
    ensures forall j :: 0 <= j < |s| ==> s[j] <= SortDesc(s)[0]
  {
    var r := SortDesc(s);
    SortDescMember(s, 0);
    forall j | 0 <= j < |s| ensures s[j] <= r[0] {
      assert s[j] in multiset(r);
      var k :| 0 <= k < |r| && r[k] == s[j];
    }
  }
}
