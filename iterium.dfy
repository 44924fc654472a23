/**
 * The free functions of the library. Each takes the iterator that its
 * `for...of` loop (or its explicit `[Symbol.iterator]()` call) opens on the
 * iterable it is given, and runs the loop step by step.
 *
 * Terminal operations return their value. A lazy adapter is run to
 * completion and returns the sequence of values it yields, in order. Every
 * method states its result through the definitions of module Seqs, and how
 * far it advanced the iterator. That says which elements it pulled and
 * which it left unread.
 */
module Iterium {
  import opened Options
  import opened Cursors
  import Seqs

  // ---------------------------------------------------------------------------
  // terminal operations

  /** `all`: true iff every element satisfies `p`; stops after the first one that fails. */
  method All<T>(p: T -> bool, c: Cursor<T>) returns (r: bool)
    requires c.Valid()
    modifies c
    ensures c.Valid()
    ensures r == Seqs.All(p, old(c.Rest()))
    ensures c.pos == old(c.pos) + Seqs.Min(Seqs.IndexWhere(Seqs.Not(p), old(c.Rest())) + 1, |old(c.Rest())|)
  {
    ghost var s := c.Rest();
    ghost var start := c.pos;
    while true
      invariant c.Valid() && start <= c.pos
      invariant forall j :: start <= j < c.pos ==> p(c.items[j])
      decreases |c.items| - c.pos
    {
      var next := c.Next();
      if next.None? {
        Seqs.AllIff(p, s);
        return true;
      }
      if !p(next.value) {
        Seqs.AllIff(p, s);
        return false;
      }
    }
  }

  /** `any`: true iff some element satisfies `p`; stops after the first one that does. */
  method Any<T>(p: T -> bool, c: Cursor<T>) returns (r: bool)
    requires c.Valid()
    modifies c
    ensures c.Valid()
    ensures r == Seqs.Any(p, old(c.Rest()))
    ensures c.pos == old(c.pos) + Seqs.Min(Seqs.IndexWhere(p, old(c.Rest())) + 1, |old(c.Rest())|)
  {
    ghost var s := c.Rest();
    ghost var start := c.pos;
    while true
      invariant c.Valid() && start <= c.pos
      invariant forall j :: start <= j < c.pos ==> !p(c.items[j])
      decreases |c.items| - c.pos
    {
      var next := c.Next();
      if next.None? {
        Seqs.AnyIff(p, s);
        return false;
      }
      if p(next.value) {
        Seqs.AnyIff(p, s);
        return true;
      }
    }
  }

  /** `count`: the number of elements, as an unbounded integer. */
  method Count<T>(c: Cursor<T>) returns (n: nat)
    requires c.Valid()
    modifies c
    ensures c.Valid() && c.pos == |c.items|
    ensures n == |old(c.Rest())|
  {
    ghost var start := c.pos;
    n := 0;
    while true
      invariant c.Valid() && start <= c.pos
      invariant n == c.pos - start
      decreases |c.items| - c.pos
    {
      var next := c.Next();
      if next.None? {
        break;
      }
      n := n + 1;
    }
  }

  /** `find`: the first element satisfying `p`, or None; stops right after it. */
  method Find<T>(p: T -> bool, c: Cursor<T>) returns (r: Option<T>)
    requires c.Valid()
    modifies c
    ensures c.Valid()
    ensures var s, k := old(c.Rest()), Seqs.IndexWhere(p, old(c.Rest()));
      r == (if k < |s| then Some(s[k]) else None)
    ensures c.pos == old(c.pos) + Seqs.Min(Seqs.IndexWhere(p, old(c.Rest())) + 1, |old(c.Rest())|)
  {
    ghost var start := c.pos;
    while true
      invariant c.Valid() && start <= c.pos
      invariant forall j :: start <= j < c.pos ==> !p(c.items[j])
      decreases |c.items| - c.pos
    {
      var next := c.Next();
      if next.None? {
        return None;
      }
      if p(next.value) {
        return Some(next.value);
      }
    }
  }

  /** `fold`: the state threaded left to right through `f`, starting at `init`. */
  method Fold<S, T>(f: (S, T) -> S, init: S, c: Cursor<T>) returns (state: S)
    requires c.Valid()
    modifies c
    ensures c.Valid() && c.pos == |c.items|
    ensures state == Seqs.FoldLeft(f, init, old(c.Rest()))
  {
    ghost var s := c.Rest();
    ghost var start := c.pos;
    state := init;
    while true
      invariant c.Valid() && start <= c.pos
      invariant state == Seqs.FoldLeft(f, init, c.items[start..c.pos])
      decreases |c.items| - c.pos
    {
      ghost var seen := c.items[start..c.pos];
      var next := c.Next();
      if next.None? {
        break;
      }
      assert c.items[start..c.pos] == seen + [next.value];
      Seqs.FoldLeftAppend(f, init, seen, [next.value]);
      state := f(state, next.value);
    }
    assert c.items[start..c.pos] == s;
  }

  /** `first`: the first element, or None; pulls at most one element.
      The source's loop returns on its first item, so it runs at most once. */
  method First<T>(c: Cursor<T>) returns (r: Option<T>)
    requires c.Valid()
    modifies c
    ensures c.Valid()
    ensures r == (if |old(c.Rest())| > 0 then Some(old(c.Rest())[0]) else None)
    ensures c.pos == old(c.pos) + Seqs.Min(1, |old(c.Rest())|)
  {
    var next := c.Next();
    if next.None? {
      return None;
    }
    return Some(next.value);
  }

  /** `last`: the final element, or None; pulls every element. */
  method Last<T>(c: Cursor<T>) returns (r: Option<T>)
    requires c.Valid()
    modifies c
    ensures c.Valid() && c.pos == |c.items|
    ensures var s := old(c.Rest()); r == (if |s| > 0 then Some(s[|s| - 1]) else None)
  {
    ghost var start := c.pos;
    r := None;
    while true
      invariant c.Valid() && start <= c.pos
      invariant r == (if c.pos > start then Some(c.items[c.pos - 1]) else None)
      decreases |c.items| - c.pos
    {
      var next := c.Next();
      if next.None? {
        break;
      }
      r := Some(next.value);
    }
  }

  /** `nth`: the element at zero-based position `n`, or None; pulls at most n + 1 elements. */
  method Nth<T>(n: nat, c: Cursor<T>) returns (r: Option<T>)
    requires c.Valid()
    modifies c
    ensures c.Valid()
    ensures var s := old(c.Rest()); r == (if n < |s| then Some(s[n]) else None)
    ensures c.pos == old(c.pos) + Seqs.Min(n + 1, |old(c.Rest())|)
  {
    ghost var s := c.Rest();
    ghost var start := c.pos;
    var k: nat := n;
    while true
      invariant c.Valid() && start <= c.pos
      invariant k + (c.pos - start) == n
      decreases |c.items| - c.pos
    {
      var next := c.Next();
      if next.None? {
        assert |s| == c.pos - start;
        return None;
      }
      if k == 0 {
        return Some(next.value);
      }
      k := k - 1;
    }
  }

  // ---------------------------------------------------------------------------
  // lazy adapters, each run to completion

  /** `chain`: everything `a` produces, then everything `b` produces. When both
      are the same iterator, the second traversal finds it already exhausted. */
  method Chain<T>(a: Cursor<T>, b: Cursor<T>) returns (out: seq<T>)
    requires a.Valid() && b.Valid()
    modifies a, b
    ensures a.Valid() && b.Valid() && a.pos == |a.items| && b.pos == |b.items|
    ensures out == old(a.Rest()) + (if a == b then [] else old(b.Rest()))
  {
    out := Drain(a);
    var tail := Drain(b);
    out := out + tail;
  }

  /** `enumerate`: each element paired with its index, counted from 0 in an unbounded integer. */
  method Enumerate<T>(c: Cursor<T>) returns (out: seq<(nat, T)>)
    requires c.Valid()
    modifies c
    ensures c.Valid() && c.pos == |c.items|
    ensures out == Seqs.EnumerateFrom(0, old(c.Rest()))
  {
    ghost var s := c.Rest();
    ghost var start := c.pos;
    var i: nat := 0;
    out := [];
    while true
      invariant c.Valid() && start <= c.pos
      invariant i == c.pos - start
      invariant out == Seqs.EnumerateFrom(0, c.items[start..c.pos])
      decreases |c.items| - c.pos
    {
      ghost var seen := c.items[start..c.pos];
      var next := c.Next();
      if next.None? {
        break;
      }
      assert c.items[start..c.pos] == seen + [next.value];
      Seqs.EnumerateAppend(0, seen, [next.value]);
      out := out + [(i, next.value)];
      i := i + 1;
    }
    assert c.items[start..c.pos] == s;
  }

  /** `filter`: the elements satisfying `p`, in source order. */
  method Filter<T>(p: T -> bool, c: Cursor<T>) returns (out: seq<T>)
    requires c.Valid()
    modifies c
    ensures c.Valid() && c.pos == |c.items|
    ensures out == Seqs.Filter(p, old(c.Rest()))
  {
    ghost var s := c.Rest();
    ghost var start := c.pos;
    out := [];
    while true
      invariant c.Valid() && start <= c.pos
      invariant out == Seqs.Filter(p, c.items[start..c.pos])
      decreases |c.items| - c.pos
    {
      ghost var seen := c.items[start..c.pos];
      var next := c.Next();
      if next.None? {
        break;
      }
      assert c.items[start..c.pos] == seen + [next.value];
      Seqs.FilterAppend(p, seen, [next.value]);
      if p(next.value) {
        out := out + [next.value];
      }
    }
    assert c.items[start..c.pos] == s;
  }

  /** `map`: `f` of each element, in source order. */
  method Map<T, U>(f: T -> U, c: Cursor<T>) returns (out: seq<U>)
    requires c.Valid()
    modifies c
    ensures c.Valid() && c.pos == |c.items|
    ensures out == Seqs.Map(f, old(c.Rest()))
  {
    ghost var s := c.Rest();
    ghost var start := c.pos;
    out := [];
    while true
      invariant c.Valid() && start <= c.pos
      invariant out == Seqs.Map(f, c.items[start..c.pos])
      decreases |c.items| - c.pos
    {
      ghost var seen := c.items[start..c.pos];
      var next := c.Next();
      if next.None? {
        break;
      }
      assert c.items[start..c.pos] == seen + [next.value];
      Seqs.MapAppend(f, seen, [next.value]);
      out := out + [f(next.value)];
    }
    assert c.items[start..c.pos] == s;
  }

  /** `skip`: calls `next()` n times, whether or not the iterator is already
      done, then yields whatever the wrapped iterator still produces. The
      call count is those n calls, one per remaining element, and the final
      call that reports "done". */
  method Skip<T>(n: nat, c: Cursor<T>) returns (out: seq<T>)
    requires c.Valid()
    modifies c
    ensures c.Valid() && c.pos == |c.items|
    ensures out == Seqs.Drop(n, old(c.Rest()))
    ensures c.calls == old(c.calls) + n + |Seqs.Drop(n, old(c.Rest()))| + 1
  {
    ghost var s := c.Rest();
    ghost var start := c.pos;
    ghost var calls0 := c.calls;
    var k: nat := n;
    while k > 0
      invariant c.Valid() && k <= n
      invariant c.pos == start + Seqs.Min(n - k, |s|)
      invariant c.calls == calls0 + (n - k)
    {
      var discarded := c.Next();
      k := k - 1;
    }
    var w := WrapIterator(c);
    var it := w.Iterator();
    out := Drain(it);
    Seqs.DropIsSuffix(n, s);
  }

  /** `skipWhile`: pulls until an element fails `p` or the iterator is done,
      yields the last value pulled, then whatever the iterator still produces.
      On an exhausted iterator that value is `undefined`, modelled as None, so
      the output is [None] rather than empty. */
  method SkipWhile<T>(p: T -> bool, c: Cursor<T>) returns (out: seq<Option<T>>)
    requires c.Valid()
    modifies c
    ensures c.Valid() && c.pos == |c.items|
    ensures Seqs.All(p, old(c.Rest())) ==> out == [None]
    ensures !Seqs.All(p, old(c.Rest())) ==> out == Lift(Seqs.DropWhile(p, old(c.Rest())))
  {
    ghost var s := c.Rest();
    ghost var start := c.pos;
    var value: Option<T> := None;
    while true
      invariant c.Valid() && start <= c.pos
      invariant forall j :: start <= j < c.pos ==> p(c.items[j])
      decreases |c.items| - c.pos
    {
      var next := c.Next();
      value := next;
      if next.None? || !p(next.value) {
        break;
      }
    }
    ghost var stop := c.pos;
    out := [value];
    var w := WrapIterator(c);
    var it := w.Iterator();
    var rest := Drain(it);
    out := out + Lift(rest);
    if value.None? {
      assert forall j :: 0 <= j < |s| ==> p(s[j]);
      Seqs.AllIff(p, s);
    } else {
      ghost var k := stop - 1 - start;
      assert forall j :: 0 <= j < k ==> p(s[j]);
      Seqs.DropWhileAt(p, s, k);
      assert s[k..] == [value.value] + rest;
      assert Lift([value.value] + rest) == [value] + Lift(rest);
    }
  }

  /** `take`: yields at most the first n elements. After the n-th it still
      pulls one more element before it stops, and `take(0)` pulls one. */
  method Take<T>(n: nat, c: Cursor<T>) returns (out: seq<T>)
    requires c.Valid()
    modifies c
    ensures c.Valid()
    ensures out == Seqs.Take(n, old(c.Rest()))
    ensures c.pos == old(c.pos) + Seqs.Min(n + 1, |old(c.Rest())|)
  {
    ghost var s := c.Rest();
    ghost var start := c.pos;
    var k: nat := n;
    out := [];
    while true
      invariant c.Valid() && start <= c.pos
      invariant k + (c.pos - start) == n
      invariant out == c.items[start..c.pos]
      decreases |c.items| - c.pos
    {
      var next := c.Next();
      if next.None? {
        break;
      }
      if k > 0 {
        out := out + [next.value];
      } else {
        break;
      }
      k := k - 1;
    }
    Seqs.TakeIsPrefix(n, s);
  }

  /** `takeWhile`: yields elements while they satisfy `p`; the first one that
      fails is pulled and dropped. */
  method TakeWhile<T>(p: T -> bool, c: Cursor<T>) returns (out: seq<T>)
    requires c.Valid()
    modifies c
    ensures c.Valid()
    ensures out == Seqs.TakeWhile(p, old(c.Rest()))
    ensures c.pos == old(c.pos) + Seqs.Min(Seqs.IndexWhere(Seqs.Not(p), old(c.Rest())) + 1, |old(c.Rest())|)
  {
    ghost var s := c.Rest();
    ghost var start := c.pos;
    out := [];
    while true
      invariant c.Valid() && start <= c.pos
      invariant forall j :: start <= j < c.pos ==> p(c.items[j])
      invariant out == c.items[start..c.pos]
      decreases |c.items| - c.pos
    {
      var next := c.Next();
      if next.None? {
        break;
      }
      if p(next.value) {
        out := out + [next.value];
      } else {
        break;
      }
    }
    Seqs.TakeWhileIsPrefix(p, s);
  }
}
