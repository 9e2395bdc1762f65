/** `filter((_, i) => i !== index)`, the way both forms drop one list element. */
module Lists {

  /** The elements of s whose position differs from index, in their original order.
      An index outside 0..|s|-1 removes nothing. */
  function Without<T>(s: seq<T>, index: int): (r: seq<T>)
    ensures 0 <= index < |s| ==> r == s[..index] + s[index + 1..]
    ensures !(0 <= index < |s|) ==> r == s
    decreases |s|
  {
    if s == [] then []
    else Without(s[..|s| - 1], index) + (if index == |s| - 1 then [] else [s[|s| - 1]])
  }

  /** Position by position: the survivors of Without, and that exactly one element went. */
  lemma WithoutAt<T>(s: seq<T>, index: int)
    requires 0 <= index < |s|
    ensures |Without(s, index)| == |s| - 1
    ensures forall i :: 0 <= i < |s| - 1 ==>
      Without(s, index)[i] == s[if i < index then i else i + 1]
    ensures multiset(Without(s, index)) + multiset{s[index]} == multiset(s)
  {
    var r := Without(s, index);
    assert s == s[..index] + [s[index]] + s[index + 1..];
  }
}
