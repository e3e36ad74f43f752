/**
 * The query operators the service composes — `Where`, `Select`,
 * `SelectMany`, `Any`, `FirstOrDefault` and `String.Contains` — over
 * sequences. Each recursive definition is tied by its contract to the
 * set-membership fact it computes.
 */
module Linq {
  import opened Entities

  /** `xs.Where(p)`: the elements of `xs` that satisfy `p`, in order. */
  function Where<T(==,!new)>(xs: seq<T>, p: T -> bool): (kept: seq<T>)
    ensures |kept| <= |xs|
  {
    if xs == [] then []
    else
      var rest := Where(xs[1..], p);
      if p(xs[0]) then [xs[0]] + rest else rest
  }

  lemma {:induction false} WhereConcat<T(!new)>(xs: seq<T>, ys: seq<T>, p: T -> bool)
    ensures Where(xs + ys, p) == Where(xs, p) + Where(ys, p)
  {
    if xs == [] {
      assert xs + ys == ys;
    } else {
      var head := if p(xs[0]) then [xs[0]] else [];
      WhereConcat(xs[1..], ys, p);
      assert (xs + ys)[0] == xs[0] && (xs + ys)[1..] == xs[1..] + ys;
      assert Where(xs + ys, p) == head + (Where(xs[1..], p) + Where(ys, p));
    }
  }

  /** `Where` keeps exactly the elements that pass. */
  lemma {:induction false} WhereMembers<T(!new)>(xs: seq<T>, p: T -> bool)
    ensures forall x :: x in Where(xs, p) <==> x in xs && p(x)
  {
    if xs != [] {
      assert forall x :: x in xs <==> x == xs[0] || x in xs[1..];
      WhereMembers(xs[1..], p);
    }
  }

  /** `Where` keeps every occurrence of an element that passes and none of one that fails. */
  lemma {:induction false} WhereCount<T(!new)>(xs: seq<T>, p: T -> bool, x: T)
    ensures multiset(Where(xs, p))[x] == if p(x) then multiset(xs)[x] else 0
  {
    if xs != [] {
      assert xs == [xs[0]] + xs[1..];
      WhereCount(xs[1..], p, x);
    }
  }

  /** A filter that every element passes leaves the sequence as it is. */
  lemma {:induction false} WhereAll<T(!new)>(xs: seq<T>, p: T -> bool)
    requires forall x :: x in xs ==> p(x)
    ensures Where(xs, p) == xs
  {
    if xs != [] {
      WhereAll(xs[1..], p);
    }
  }

  /** A filter that no element passes leaves nothing. */
  lemma {:induction false} WhereNone<T(!new)>(xs: seq<T>, p: T -> bool)
    requires forall x :: x in xs ==> !p(x)
    ensures Where(xs, p) == []
  {
    if xs != [] {
      WhereNone(xs[1..], p);
    }
  }

  /** Filtering by `p` first changes nothing for a stricter filter `q`. */
  lemma {:induction false} WhereWhere<T(!new)>(xs: seq<T>, p: T -> bool, q: T -> bool)
    requires forall x :: q(x) ==> p(x)
    ensures Where(Where(xs, p), q) == Where(xs, q)
  {
    if xs != [] {
      WhereWhere(xs[1..], p, q);
      var rest := Where(xs[1..], p);
      if p(xs[0]) {
        assert ([xs[0]] + rest)[0] == xs[0] && ([xs[0]] + rest)[1..] == rest;
      }
    }
  }

  /** `xs.Select(f)`: `f` applied to every element, in order. */
  function Select<T, U>(xs: seq<T>, f: T -> U): (ys: seq<U>)
    ensures |ys| == |xs|
    ensures forall i :: 0 <= i < |xs| ==> ys[i] == f(xs[i])
  {
    if xs == [] then [] else [f(xs[0])] + Select(xs[1..], f)
  }

  /** `xs.SelectMany(f)`: the sequences `f(x)` for each `x` of `xs`, concatenated in order. */
  function SelectMany<T(==), U(==,!new)>(xs: seq<T>, f: T -> seq<U>): (flat: seq<U>)
    ensures forall y :: y in flat <==> exists x :: x in xs && y in f(x)
  {
    if xs == [] then []
    else
      assert xs[0] in xs;
      assert forall x :: x in xs[1..] ==> x in xs;
      assert forall x :: x in xs ==> x == xs[0] || x in xs[1..];
      f(xs[0]) + SelectMany(xs[1..], f)
  }

  /** `xs.Any(p)`: some element of `xs` satisfies `p`. */
  function Any<T(==)>(xs: seq<T>, p: T -> bool): (found: bool)
    ensures found <==> exists x :: x in xs && p(x)
  {
    if xs == [] then false
    else
      assert forall x :: x in xs ==> x == xs[0] || x in xs[1..];
      p(xs[0]) || Any(xs[1..], p)
  }

  /** `i` is the first index of `xs` whose element satisfies `p`. */
  ghost predicate IsFirstMatch<T>(xs: seq<T>, p: T -> bool, i: int) {
    0 <= i < |xs| && p(xs[i]) && forall j :: 0 <= j < i ==> !p(xs[j])
  }

  /** `xs.FirstOrDefault(p)`: the first element satisfying `p`, or nothing (null). */
  function FirstOrDefault<T(==)>(xs: seq<T>, p: T -> bool): (found: Option<T>)
    ensures found.None? <==> forall x :: x in xs ==> !p(x)
    ensures found.Some? ==> exists i :: IsFirstMatch(xs, p, i) && xs[i] == found.value
  {
    if xs == [] then None
    else if p(xs[0]) then
      assert IsFirstMatch(xs, p, 0);
      Some(xs[0])
    else
      var rest := FirstOrDefault(xs[1..], p);
      assert forall x :: x in xs ==> x == xs[0] || x in xs[1..];
      assert forall i :: IsFirstMatch(xs[1..], p, i) ==> IsFirstMatch(xs, p, i + 1);
      rest
  }

  /** `part` occurs in `s` starting at index `i`. */
  ghost predicate OccursAt(s: string, part: string, i: int) {
    0 <= i && i + |part| <= |s| && s[i..i + |part|] == part
  }

  /** `s.Contains(part)`: ordinal (case-sensitive) substring search. */
  function Contains(s: string, part: string): (found: bool)
    ensures found <==> exists i :: OccursAt(s, part, i)
    decreases |s|
  {
    if |part| > |s| then false
    else if s[..|part|] == part then
      assert OccursAt(s, part, 0);
      true
    else
      assert forall i :: 0 <= i ==> (OccursAt(s[1..], part, i) <==> OccursAt(s, part, i + 1));
      assert forall i :: OccursAt(s, part, i) ==> i == 0 || OccursAt(s[1..], part, i - 1);
      Contains(s[1..], part)
  }
}
