/**
 * Clients of the fluent wrapper: the library's test scenarios, and the
 * properties that relate several operations, each stated for all sources
 * and derived from the contracts of `Iter` and the lemmas of module Seqs.
 */
module Scenarios {
  import opened Options
  import opened Fluent
  import Seqs

  // ---------------------------------------------------------------------------
  // properties relating several operations

  /** filter(p) followed by all(p) is always true. */
  method FilterThenAll<T>(it: Iter<T>, p: T -> bool) returns (r: bool)
    ensures r
  {
    var kept := it.Filter(p);
    r := kept.All(p);
    Seqs.FilterAll(p, it.source);
  }

  /** count() equals the length of collect(). */
  method CountIsCollectLength<T>(it: Iter<T>) returns (n: nat, items: seq<T>)
    ensures n == |items|
  {
    n := it.Count();
    items := it.Collect();
  }

  /** take(n).collect() has min(n, |source|) elements, and take(n) followed by
      skip(n), each on its own traversal of the source, gives the source back. */
  method TakeThenSkip<T>(it: Iter<T>, n: nat) returns (front: seq<T>, back: seq<T>)
    ensures |front| == Seqs.Min(n, |it.source|)
    ensures front + back == it.source
  {
    var t := it.Take(n);
    var d := it.Skip(n);
    front := t.Collect();
    back := d.Collect();
    Seqs.TakeIsPrefix(n, it.source);
    Seqs.TakeDrop(n, it.source);
  }

  /** takeWhile(p) followed by skipWhile(p) gives the source back when some
      element fails `p`; otherwise skipWhile(p) yields the lone `undefined`. */
  method TakeWhileThenSkipWhile<T>(it: Iter<T>, p: T -> bool) returns (front: seq<T>, back: seq<Option<T>>)
    ensures !Seqs.All(p, it.source) ==> Lift(front) + back == Lift(it.source)
    ensures Seqs.All(p, it.source) ==> front == it.source && back == [None]
  {
    var t := it.TakeWhile(p);
    var d := it.SkipWhile(p);
    front := t.Collect();
    back := d.Collect();
    Seqs.TakeWhileDropWhile(p, it.source);
    if Seqs.All(p, it.source) {
      Seqs.AllIndexWhere(p, it.source);
      Seqs.TakeWhileIsPrefix(p, it.source);
    } else {
      assert Lift(front) + back == Lift(front + Seqs.DropWhile(p, it.source));
    }
  }

  /** enumerate() numbers the elements 0, 1, 2, ... in source order. */
  method EnumerateNumbersInOrder<T>(it: Iter<T>) returns (pairs: seq<(nat, T)>)
    ensures |pairs| == |it.source|
    ensures forall j :: 0 <= j < |pairs| ==> pairs[j] == (j, it.source[j])
  {
    var e := it.Enumerate();
    pairs := e.Collect();
    forall j | 0 <= j < |pairs|
      ensures pairs[j] == (j, it.source[j])
    {
      Seqs.EnumerateAt(0, it.source, j);
    }
  }

  /** map(f) keeps the length and applies `f` position by position. */
  method MapPointwise<T, U>(it: Iter<T>, f: T -> U) returns (mapped: seq<U>)
    ensures |mapped| == |it.source|
    ensures forall i :: 0 <= i < |mapped| ==> mapped[i] == f(it.source[i])
  {
    var m := it.Map(f);
    mapped := m.Collect();
    forall i | 0 <= i < |mapped|
      ensures mapped[i] == f(it.source[i])
    {
      Seqs.MapAt(f, it.source, i);
    }
  }

  /** all(p) is the negation of any(!p). */
  method AllIsNotAnyNot<T>(it: Iter<T>, p: T -> bool) returns (every: bool, some: bool)
    ensures every == !some
  {
    every := it.All(p);
    some := it.Any(Seqs.Not(p));
    Seqs.AllNotAny(p, it.source);
  }

  // ---------------------------------------------------------------------------
  // the library's test scenarios

  method ScenarioFilterOdd() returns (out: seq<int>)
    ensures out == [1, 3]
  {
    var it := Iter([1, 2, 3, 4]);
    var odd := it.Filter(v => v % 2 == 1);
    out := odd.Collect();
  }

  method ScenarioSkipWhile() returns (out: seq<Option<int>>)
    ensures out == [Some(3), Some(4)]
  {
    var it := Iter([1, 2, 3, 4]);
    var rest := it.SkipWhile(v => v < 3);
    out := rest.Collect();
  }

  method ScenarioTakeWhile() returns (out: seq<int>)
    ensures out == [1, 2]
  {
    var it := Iter([1, 2, 3, 4]);
    var front := it.TakeWhile(v => v < 3);
    out := front.Collect();
  }

  method ScenarioTakeAndSkip() returns (two: seq<int>, none: seq<int>, all: seq<int>, rest: seq<int>, gone: seq<int>)
    ensures two == [1, 2] && none == [] && all == [1, 2, 3, 4]
    ensures rest == [3, 4] && gone == []
  {
    var it := Iter([1, 2, 3, 4]);
    var t2 := it.Take(2);
    var t0 := it.Take(0);
    var t5 := it.Take(5);
    var s2 := it.Skip(2);
    var s5 := it.Skip(5);
    two := t2.Collect();
    none := t0.Collect();
    all := t5.Collect();
    rest := s2.Collect();
    gone := s5.Collect();
  }

  method ScenarioNth() returns (second: Option<int>)
    ensures second == Some(2)
  {
    var it := Iter([1, 2, 3, 4]);
    second := it.Nth(1);
  }

  method ScenarioFind() returns (even: Option<int>, none: Option<int>, empty: Option<int>)
    ensures even == Some(2) && none == None && empty == None
  {
    var it := Iter([1, 2, 3, 4]);
    even := it.Find(v => v % 2 == 0);
    none := it.Find(v => v > 4);
    var nothing: Iter<int> := Iter([]);
    empty := nothing.Find(v => v % 2 == 0);
  }

  method ScenarioFirstAndLast() returns (head: Option<int>, last: Option<int>, noHead: Option<int>, noLast: Option<int>)
    ensures head == Some(1) && last == Some(4) && noHead == None && noLast == None
  {
    var it := Iter([1, 2, 3, 4]);
    head := it.First();
    last := it.Last();
    var nothing: Iter<int> := Iter([]);
    noHead := nothing.First();
    noLast := nothing.Last();
  }

  method ScenarioAllAndAny() returns (positive: bool, aboveOne: bool, vacuous: bool, someAboveOne: bool, noneInEmpty: bool)
    ensures positive && !aboveOne && vacuous && someAboveOne && !noneInEmpty
  {
    var it := Iter([1, 2, 3, 4]);
    positive := it.All(v => v > 0);
    aboveOne := it.All(v => v > 1);
    someAboveOne := it.Any(v => v > 1);
    var nothing: Iter<int> := Iter([]);
    vacuous := nothing.All(v => false);
    noneInEmpty := nothing.Any(v => true);
  }

  method ScenarioCountAndFold() returns (n: nat, sum: int)
    ensures n == 4 && sum == 10
  {
    var it := Iter([1, 2, 3, 4]);
    n := it.Count();
    sum := it.Fold((acc: int, v: int) => acc + v, 0);
  }

  method ScenarioChain() returns (joined: seq<int>)
    ensures joined == [1, 2, 3, 4, 5, 6, 7, 8]
  {
    var it := Iter([1, 2, 3, 4]);
    var c := it.Chain([5, 6, 7, 8]);
    joined := c.Collect();
  }

  method ScenarioEnumerate() returns (pairs: seq<(nat, int)>)
    ensures pairs == [(0, 1), (1, 2), (2, 3), (3, 4)]
  {
    var it := Iter([1, 2, 3, 4]);
    var e := it.Enumerate();
    pairs := e.Collect();
  }

  method ScenarioMap() returns (doubled: seq<int>)
    ensures doubled == [2, 4, 6, 8]
  {
    var it := Iter([1, 2, 3, 4]);
    var m := it.Map(v => v * 2);
    doubled := m.Collect();
  }
}
