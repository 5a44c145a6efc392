/** Sequence helpers for the two `List<T>` operations the level code relies on:
    `IndexOf` (first occurrence, -1 when absent) and `Remove` (drop the first occurrence). */
module Seqs {

  /** The elements of `s` are pairwise different. */
  ghost predicate Distinct<T>(s: seq<T>)
  {
    forall i, j :: 0 <= i < j < |s| ==> s[i] != s[j]
  }

  /** `List.IndexOf`: the index of the first occurrence of `x`, or -1 when `x` does not occur. */
  function IndexOf<T(==)>(s: seq<T>, x: T): (i: int)
    ensures -1 <= i < |s|
    ensures i == -1 <==> x !in s
    ensures 0 <= i ==> s[i] == x && forall j :: 0 <= j < i ==> s[j] != x
  {
    if s == [] then -1
    else if s[0] == x then 0
    else
      var k := IndexOf(s[1..], x);
      if k == -1 then -1 else k + 1
  }

  /** `List.Remove`: deletes the first occurrence of `x` and keeps the rest in order
      (`RemoveFirstSlices`); a sequence without `x` comes back unchanged. */
  function RemoveFirst<T(==)>(s: seq<T>, x: T): (r: seq<T>)
    ensures x !in s ==> r == s
    ensures x in s ==> |r| == |s| - 1
  {
    if s == [] then []
    else if s[0] == x then s[1..]
    else
      assert s == [s[0]] + s[1..];
      [s[0]] + RemoveFirst(s[1..], x)
  }

  /** What `RemoveFirst` keeps: everything before the first occurrence of `x` and everything after it. */
  lemma {:induction false} RemoveFirstSlices<T>(s: seq<T>, x: T)
    requires x in s
    ensures 0 <= IndexOf(s, x) && RemoveFirst(s, x) == s[..IndexOf(s, x)] + s[IndexOf(s, x) + 1..]
  {
    if s[0] != x {
      assert x in s[1..] by { assert s == [s[0]] + s[1..]; }
      RemoveFirstSlices(s[1..], x);
      ConsSlices(s, IndexOf(s[1..], x));
    }
  }

  /** Putting the head back in front of the two slices of the tail around its entry `i`. */
  lemma ConsSlices<T>(s: seq<T>, i: nat)
    requires i + 1 < |s|
    ensures [s[0]] + (s[1..][..i] + s[1..][i + 1..]) == s[..i + 1] + s[i + 2..]
  {
    assert s[1..][..i] == s[1..i + 1];
    assert s[1..][i + 1..] == s[i + 2..];
    assert [s[0]] + s[1..i + 1] == s[..i + 1];
  }

  /** Removal invents nothing. */
  lemma {:induction false} RemoveFirstMembers<T>(s: seq<T>, x: T)
    ensures forall y :: y in RemoveFirst(s, x) ==> y in s
  {
    if s != [] && s[0] != x {
      RemoveFirstMembers(s[1..], x);
    }
  }

  /** Removing from a sequence without repeats: exactly `x` disappears, nothing repeats. */
  lemma RemoveFirstDistinct<T>(s: seq<T>, x: T)
    requires Distinct(s)
    ensures Distinct(RemoveFirst(s, x))
    ensures forall y :: y in RemoveFirst(s, x) <==> y in s && y != x
  {
    if x in s {
      RemoveFirstSlices(s, x);
      SkipDistinct(s, IndexOf(s, x));
    }
  }

  /** Dropping slot i of a sequence without repeats drops exactly the element held there. */
  lemma SkipDistinct<T>(s: seq<T>, i: nat)
    requires i < |s| && Distinct(s)
    ensures Distinct(s[..i] + s[i + 1..])
    ensures forall y :: y in s[..i] + s[i + 1..] <==> y in s && y != s[i]
  {
    var r := s[..i] + s[i + 1..];
    forall a, b | 0 <= a < b < |r| ensures r[a] != r[b] {
      assert r[a] == s[if a < i then a else a + 1];
      assert r[b] == s[if b < i then b else b + 1];
    }
    forall y | y in s && y != s[i] ensures y in r {
      var a :| 0 <= a < |s| && s[a] == y;
      assert r[if a < i then a else a - 1] == y;
    }
    forall y | y in r ensures y in s && y != s[i] {
      var a :| 0 <= a < |r| && r[a] == y;
      assert s[if a < i then a else a + 1] == y;
    }
  }

  /** Removing the element that was appended last gives back the sequence before the append. */
  lemma {:induction false} RemoveAppended<T>(s: seq<T>, x: T)
    requires x !in s
    ensures RemoveFirst(s + [x], x) == s
  {
    RemoveFirstSlices(s + [x], x);
    assert IndexOf(s + [x], x) == |s|;
    assert (s + [x])[..|s|] == s;
  }

  /** In a sequence without repeats, removing its last element by value drops the last entry. */
  lemma RemoveLast<T>(s: seq<T>)
    requires Distinct(s) && s != []
    ensures RemoveFirst(s, s[|s| - 1]) == s[..|s| - 1]
  {
    var front, x := s[..|s| - 1], s[|s| - 1];
    assert s == front + [x];
    assert x !in front by {
      forall j | 0 <= j < |front| ensures front[j] != x {
        assert front[j] == s[j];
      }
    }
    RemoveAppended(front, x);
  }
}
