/** Order-preserving filter, map and flat-map: the building blocks of a nested-loop join. */
module Seqs {

  function Filter<T(!new)>(s: seq<T>, f: T -> bool): (r: seq<T>)
    ensures |r| <= |s|
    ensures forall x :: x in r <==> x in s && f(x)
  {
    if s == [] then [] else (if f(s[0]) then [s[0]] else []) + Filter(s[1..], f)
  }

  function Map<A, B>(s: seq<A>, f: A -> B): (r: seq<B>)
    ensures |r| == |s|
    ensures forall i :: 0 <= i < |s| ==> r[i] == f(s[i])
  {
    if s == [] then [] else [f(s[0])] + Map(s[1..], f)
  }

  function FlatMap<A, B>(s: seq<A>, f: A -> seq<B>): seq<B> {
    if s == [] then [] else f(s[0]) + FlatMap(s[1..], f)
  }

  /** Whatever an element contributes is in the flat-map. */
  lemma {:induction false} FlatMapIn<A, B>(s: seq<A>, f: A -> seq<B>, x: A, y: B)
    requires x in s && y in f(x)
    ensures y in FlatMap(s, f)
  {
    if s[0] != x {
      FlatMapIn(s[1..], f, x, y);
    }
  }

  /** Everything in the flat-map was contributed by some element. */
  lemma {:induction false} FlatMapOrigin<A, B>(s: seq<A>, f: A -> seq<B>, y: B) returns (x: A)
    requires y in FlatMap(s, f)
    ensures x in s && y in f(x)
  {
    if y in f(s[0]) {
      x := s[0];
    } else {
      x := FlatMapOrigin(s[1..], f, y);
    }
  }

  lemma FlatMapSingle<A, B>(x: A, f: A -> seq<B>)
    ensures FlatMap([x], f) == f(x)
  {
    assert [x][1..] == [];
  }

  /** A filter that no element passes is empty. */
  lemma FilterNone<T(!new)>(s: seq<T>, f: T -> bool)
    requires forall i :: 0 <= i < |s| ==> !f(s[i])
    ensures Filter(s, f) == []
  {
    if s != [] {
      FilterNone(s[1..], f);
    }
  }

  /** If no two elements both pass, at most one element comes out. */
  lemma {:induction false} FilterAtMostOne<T(!new)>(s: seq<T>, f: T -> bool)
    requires forall i, j :: 0 <= i < j < |s| ==> !(f(s[i]) && f(s[j]))
    ensures |Filter(s, f)| <= 1
  {
    if s != [] {
      if f(s[0]) {
        FilterNone(s[1..], f);
      } else {
        FilterAtMostOne(s[1..], f);
      }
    }
  }

  /** Flat-mapping a function that always yields one element is mapping. */
  lemma {:induction false} FlatMapSingletons<A, B>(s: seq<A>, f: A -> seq<B>, g: A -> B)
    requires forall i :: 0 <= i < |s| ==> f(s[i]) == [g(s[i])]
    ensures FlatMap(s, f) == Map(s, g)
  {
    if s != [] {
      FlatMapSingletons(s[1..], f, g);
    }
  }

  /** When every element yields `k` results, the flat-map has `k` results per element. */
  lemma {:induction false} FlatMapUniformLength<A, B>(s: seq<A>, f: A -> seq<B>, k: nat)
    requires forall i :: 0 <= i < |s| ==> |f(s[i])| == k
    ensures |FlatMap(s, f)| == |s| * k
  {
    if s != [] {
      FlatMapUniformLength(s[1..], f, k);
    }
  }

  // ---------------------------------------------------------------------------
  // Small facts about sequences, each proved in its own small context
  // ---------------------------------------------------------------------------

  lemma HeadTail<T>(s: seq<T>)
    requires s != []
    ensures [s[0]] + s[1..] == s
  {
  }

  lemma TakeAll<T>(s: seq<T>)
    ensures s[..|s|] == s
  {
  }

  lemma TakeNext<T>(s: seq<T>, i: nat)
    requires i < |s|
    ensures s[..i + 1] == s[..i] + [s[i]]
  {
  }

  lemma SnocTail<T>(s: seq<T>, x: T)
    requires s != []
    ensures (s + [x])[1..] == s[1..] + [x]
  {
  }

  lemma SingleTail<T>(x: T)
    ensures [x][1..] == []
  {
  }

  lemma AppendAssoc<T>(a: seq<T>, b: seq<T>, c: seq<T>)
    ensures (a + b) + c == a + (b + c)
  {
  }

  lemma AppendSplit<T>(a: seq<T>, b: seq<T>)
    ensures (a + b)[..|a|] == a && (a + b)[|a|..] == b
  {
  }

  lemma AppendFront<T>(a: seq<T>, b: seq<T>)
    requires a != []
    ensures (a + b)[0] == a[0] && (a + b)[1..] == a[1..] + b
  {
  }

  lemma EmptyAppend<T>(a: seq<T>, b: seq<T>)
    requires a == []
    ensures a + b == b
  {
  }

  lemma AppendEmpty<T>(a: seq<T>, b: seq<T>)
    requires b == []
    ensures a + b == a
  {
  }
}
