/** The two list primitives the store relies on, as .NET's List<T> performs
    them on references: the first index of an element, and removal of the
    first occurrence (IndexOf followed by RemoveAt). */
module Sequences {

  /** The index of the first occurrence of `x` in `s`, or -1 (List.IndexOf). */
  function IndexOf<T(==)>(s: seq<T>, x: T): (i: int)
    ensures -1 <= i < |s|
    ensures i == -1 <==> x !in s
    ensures 0 <= i ==> s[i] == x && x !in s[..i]
  {
    if |s| == 0 then -1
    else if s[0] == x then 0
    else
      var j := IndexOf(s[1..], x);
      if j == -1 then -1
      else
        assert s[..j + 1] == [s[0]] + s[1..][..j];
        j + 1
  }

  /** `s` without its first occurrence of `x` (List.Remove): an absent
      element leaves the list as it is; a present one loses exactly one copy,
      and every other entry keeps its place in the order. */
  function RemoveFirst<T(==)>(s: seq<T>, x: T): (r: seq<T>)
    ensures x !in s ==> r == s
    ensures x in s ==> |r| == |s| - 1
    ensures multiset(r) == multiset(s) - multiset{x}
    ensures x in s ==> exists i :: 0 <= i < |s| && s[i] == x && x !in s[..i] && r == s[..i] + s[i + 1..]
  {
    var i := IndexOf(s, x);
    if i == -1 then s
    else
      assert s == s[..i] + [s[i]] + s[i + 1..];
      s[..i] + s[i + 1..]
  }

  /** An element stored exactly once is gone after one removal, so a second
      removal finds nothing and changes nothing. */
  lemma RemoveOnlyOccurrence<T>(s: seq<T>, x: T)
    requires multiset(s)[x] == 1
    ensures x in s && x !in RemoveFirst(s, x)
    ensures RemoveFirst(RemoveFirst(s, x), x) == RemoveFirst(s, x)
  {
    var r := RemoveFirst(s, x);
    assert multiset(r)[x] == 0;
  }
}
