/** Lists laid end to end, and lists without repetition. */
module Sequences {

  lemma Regroup<T>(a: seq<T>, b: seq<T>, c: seq<T>)
    ensures a + (b + c) == (a + b) + c
  {}

  function Concat<T>(parts: seq<seq<T>>): seq<T> {
    if parts == [] then [] else Concat(parts[..|parts| - 1]) + parts[|parts| - 1]
  }

  lemma ConcatSnoc<T>(parts: seq<seq<T>>, last: seq<T>)
    ensures Concat(parts + [last]) == Concat(parts) + last
  {
    assert (parts + [last])[..|parts|] == parts;
  }

  lemma {:induction false} ConcatCons<T>(first: seq<T>, parts: seq<seq<T>>)
    ensures Concat([first] + parts) == first + Concat(parts)
  {
    if parts == [] {
      assert [first] + parts == [] + [first];
      ConcatSnoc([], first);
      assert Concat<T>([]) == [];
    } else {
      var front, last := parts[..|parts| - 1], parts[|parts| - 1];
      calc {
        Concat([first] + parts);
        { assert [first] + parts == ([first] + front) + [last]; }
        Concat(([first] + front) + [last]);
        { ConcatSnoc([first] + front, last); }
        Concat([first] + front) + last;
        { ConcatCons(first, front); }
        first + Concat(front) + last;
        first + (Concat(front) + last);
        first + Concat(parts);
      }
    }
  }

  /** The elements of `part` stand in `whole` in the same order. */
  ghost predicate Subsequence<T>(part: seq<T>, whole: seq<T>) {
    exists at: seq<nat> :: AtPositions(part, whole, at)
  }

  predicate AtPositions<T(==)>(part: seq<T>, whole: seq<T>, at: seq<nat>) {
    && |at| == |part| && (forall i, j :: 0 <= i < j < |at| ==> at[i] < at[j])
    && forall i :: 0 <= i < |at| ==> at[i] < |whole| && part[i] == whole[at[i]]
  }

  lemma EmptySubsequence<T>(whole: seq<T>)
    ensures Subsequence([], whole)
  {
    assert AtPositions([], whole, []);
  }

  /** One more element, taken into the part or not. */
  lemma SubsequenceSnoc<T>(part: seq<T>, whole: seq<T>, x: T, taken: bool)
    requires Subsequence(part, whole)
    ensures Subsequence(part + if taken then [x] else [], whole + [x])
  {
    var at: seq<nat> :| AtPositions(part, whole, at);
    if taken {
      assert AtPositions(part + [x], whole + [x], at + [|whole|]);
    } else {
      assert part + [] == part && AtPositions(part, whole + [x], at);
    }
  }

  predicate Distinct<T(==)>(s: seq<T>) {
    forall i, j :: 0 <= i < j < |s| ==> s[i] != s[j]
  }

  /** The list with one element taken out. */
  function Without<T>(s: seq<T>, i: nat): (r: seq<T>)
    requires i < |s|
    ensures |r| == |s| - 1 && forall k :: 0 <= k < |r| ==> r[k] == s[if k < i then k else k + 1]
  {
    s[..i] + s[i + 1..]
  }
}
