/** Small shared vocabulary: optional values, and a few facts about sequences and sets. */
module Prelude {

  datatype Option<+T> = None | Some(value: T)

  /** The concatenation of all parts, in order. */
  function Flatten<T>(parts: seq<seq<T>>): seq<T> {
    if parts == [] then [] else parts[0] + Flatten(parts[1..])
  }

  lemma {:induction false} FlattenAppend<T>(a: seq<seq<T>>, b: seq<seq<T>>)
    ensures Flatten(a + b) == Flatten(a) + Flatten(b)
  {
    if a == [] {
      assert a + b == b;
    } else {
      assert (a + b)[1..] == a[1..] + b;
      FlattenAppend(a[1..], b);
    }
  }

  lemma FlattenCons<T>(first: seq<T>, rest: seq<seq<T>>)
    ensures Flatten([first] + rest) == first + Flatten(rest)
  {
    assert ([first] + rest)[1..] == rest;
  }

  lemma FlattenSnoc<T>(a: seq<seq<T>>, last: seq<T>)
    ensures Flatten(a + [last]) == Flatten(a) + last
  {
    FlattenAppend(a, [last]);
    assert Flatten([last]) == last + Flatten<T>([]);
  }

  /** What the first n parts contribute is a prefix of what all of them do. */
  lemma FlattenSplit<T>(parts: seq<seq<T>>, n: nat)
    requires n <= |parts|
    ensures Flatten(parts) == Flatten(parts[..n]) + Flatten(parts[n..])
  {
    assert parts == parts[..n] + parts[n..];
    FlattenAppend(parts[..n], parts[n..]);
  }

  lemma Assoc<T>(a: seq<T>, b: seq<T>, c: seq<T>)
    ensures (a + b) + c == a + (b + c)
  {
  }

  lemma SplitAt<T>(s: seq<T>, i: nat)
    requires i < |s|
    ensures s == s[..i] + [s[i]] + s[i + 1..]
  {
  }

  /** x occurs nowhere in s. */
  predicate Lacks<T(==)>(s: seq<T>, x: T) {
    forall i :: 0 <= i < |s| ==> s[i] != x
  }

  /** Index of the first x, or -1. */
  function Find<T(==)>(s: seq<T>, x: T): (i: int)
    ensures -1 <= i < |s|
    ensures i == -1 ==> Lacks(s, x)
    ensures i >= 0 ==> s[i] == x && Lacks(s[..i], x)
  {
    if s == [] then -1
    else if s[0] == x then 0
    else
      var k := Find(s[1..], x);
      if k == -1 then -1 else k + 1
  }

  lemma {:induction false} FindAfter<T>(before: seq<T>, x: T, rest: seq<T>)
    requires Lacks(before, x)
    ensures Find(before + [x] + rest, x) == |before|
  {
    if before != [] {
      assert (before + [x] + rest)[1..] == before[1..] + [x] + rest;
      FindAfter(before[1..], x, rest);
    }
  }

  lemma {:induction false} FindPast<T>(before: seq<T>, rest: seq<T>, x: T)
    requires Lacks(before, x)
    ensures Find(before + rest, x) == -1 || Find(before + rest, x) >= |before|
  {
    if before == [] {
      assert before + rest == rest;
    } else {
      assert (before + rest)[1..] == before[1..] + rest;
      FindPast(before[1..], rest, x);
    }
  }

  lemma {:induction false} SubsetSize<T>(a: set<T>, b: set<T>)
    requires a <= b
    ensures |a| <= |b|
  {
    if a != {} {
      var x :| x in a;
      SubsetSize(a - {x}, b - {x});
    }
  }
}
