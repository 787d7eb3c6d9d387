/** Shared vocabulary: identities, optional and fallible results, and the
    sequence helpers that stand for JavaScript's `new Set(...)` and
    `Array.prototype.includes`. */
module Common {

  /** Opaque chat-platform identities (users, channels, messages) are strings. */
  type UserId = string

  datatype Option<+T> = None | Some(value: T)

  datatype Result<+T, +E> = Ok(value: T) | Err(error: E)

  predicate NoDuplicates<T(==)>(s: seq<T>) {
    forall i, j :: 0 <= i < j < |s| ==> s[i] != s[j]
  }

  function Min(a: int, b: int): int { if a <= b then a else b }

  /** `[...new Set(s)]`: the first occurrence of every element, in order. */
  function Dedupe<T(==,!new)>(s: seq<T>): (r: seq<T>)
    ensures NoDuplicates(r)
    ensures forall x :: x in r <==> x in s
    ensures |r| <= |s|
  {
    if s == [] then []
    else
      var p := Dedupe(s[..|s| - 1]);
      assert forall x :: x in s <==> x in s[..|s| - 1] || x == s[|s| - 1];
      if s[|s| - 1] in p then p else p + [s[|s| - 1]]
  }

  /** A sequence that already has no duplicates passes through unchanged. */
  lemma {:induction false} DedupeOfDistinct<T(!new)>(s: seq<T>)
    requires NoDuplicates(s)
    ensures Dedupe(s) == s
  {
    if s != [] {
      DedupeOfDistinct(s[..|s| - 1]);
      assert s[|s| - 1] !in s[..|s| - 1];
    }
  }

  /** The index of the first occurrence of `x` in `s`. */
  function FirstIndex<T(==)>(s: seq<T>, x: T): (i: nat)
    requires x in s
    ensures i < |s| && s[i] == x && x !in s[..i]
  {
    if s[0] == x then 0
    else
      assert x in s[1..];
      assert s[..1 + FirstIndex(s[1..], x)] == [s[0]] + s[1..][..FirstIndex(s[1..], x)];
      1 + FirstIndex(s[1..], x)
  }

  /** Appending to a sequence keeps the first occurrences already in it. */
  lemma {:induction false} FirstIndexAppend<T>(s: seq<T>, y: T, x: T)
    requires x in s
    ensures FirstIndex(s + [y], x) == FirstIndex(s, x)
  {
    if s[0] != x {
      assert (s + [y])[1..] == s[1..] + [y];
      FirstIndexAppend(s[1..], y, x);
    }
  }

  /** `Dedupe` lists the elements in the order of their first occurrence
      in the input. */
  lemma {:induction false} DedupeKeepsOrder<T(!new)>(s: seq<T>)
    ensures forall i, j :: 0 <= i < j < |Dedupe(s)| ==>
      FirstIndex(s, Dedupe(s)[i]) < FirstIndex(s, Dedupe(s)[j])
  {
    if s != [] {
      var q := s[..|s| - 1];
      var y := s[|s| - 1];
      var p := Dedupe(q);
      var r := Dedupe(s);
      DedupeKeepsOrder(q);
      assert s == q + [y];
      forall x | x in q ensures FirstIndex(s, x) == FirstIndex(q, x) {
        FirstIndexAppend(q, y, x);
      }
      if y !in p {
        assert y !in q;
        assert forall k :: 0 <= k < |q| ==> s[k] == q[k];
      }
      forall i, j | 0 <= i < j < |r| ensures FirstIndex(s, r[i]) < FirstIndex(s, r[j]) {
        assert r[i] in p;
        if j < |p| {
          assert r[i] == p[i] && r[j] == p[j];
        }
      }
    }
  }

  /** A set is empty or has an element; stated as a disjunction so that a
      caller holding a non-empty set can pick an element with `:|`. */
  lemma EmptyOrHasElement<T>(s: set<T>)
    ensures s == {} || exists x :: x in s
  {
    if !exists x :: x in s {
      assert s == {};
    }
  }

  /** The same for sets of integers, whose elements are represented unboxed. */
  lemma EmptyOrHasInt(s: set<int>)
    ensures s == {} || exists x :: x in s
  {
    if !exists x :: x in s {
      assert s == {};
    }
  }

  /** A duplicate-free sequence has as many distinct elements as entries. */
  lemma {:induction false} DistinctCardinality<T>(s: seq<T>)
    requires NoDuplicates(s)
    ensures |set x | x in s| == |s|
  {
    if s != [] {
      var p := s[..|s| - 1];
      DistinctCardinality(p);
      assert (set x | x in s) == (set x | x in p) + {s[|s| - 1]};
      assert s[|s| - 1] !in p;
    } else {
      assert (set x: T | x in s) == {};
    }
  }

  /** `s` without the element at index `i` (what `Array.prototype.splice(i, 1)`
      leaves behind). */
  function RemoveAt<T(==,!new)>(s: seq<T>, i: nat): (r: seq<T>)
    requires i < |s|
    ensures |r| == |s| - 1
    ensures forall x :: x in r ==> x in s
    ensures NoDuplicates(s) ==> NoDuplicates(r) && s[i] !in r
    ensures forall x :: x in s && x != s[i] ==> x in r
  {
    assert forall x :: x in s ==> x in s[..i] || x == s[i] || x in s[i + 1..] by {
      forall x | x in s ensures x in s[..i] || x == s[i] || x in s[i + 1..] {
        var k :| 0 <= k < |s| && s[k] == x;
        if k < i { assert s[..i][k] == x; } else if k > i { assert s[i + 1..][k - i - 1] == x; }
      }
    }
    s[..i] + s[i + 1..]
  }
}
