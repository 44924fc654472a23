/**
 * The fluent class `Iter` and the exported `iter`, which is its constructor.
 * Its source here is a re-traversable collection, like the arrays the library
 * is used on: every method opens a fresh iterator on the source and hands it
 * to the matching free function, and every adapter wraps what that function
 * yields in a new `Iter`.
 */
module Fluent {
  import opened Options
  import opened Cursors
  import Seqs
  import Iterium

  datatype Iter<T> = Iter(source: seq<T>) {

    /** `[Symbol.iterator]`: a fresh iterator producing the source's items in order. */
    method Iterator() returns (it: Cursor<T>)
      ensures fresh(it) && it.Valid() && it.Rest() == source
    {
      it := new Cursor(source);
    }

    method All(p: T -> bool) returns (r: bool)
      ensures r == Seqs.All(p, source)
    {
      var it := new Cursor(source);
      r := Iterium.All(p, it);
    }

    method Any(p: T -> bool) returns (r: bool)
      ensures r == Seqs.Any(p, source)
    {
      var it := new Cursor(source);
      r := Iterium.Any(p, it);
    }

    method Chain(other: seq<T>) returns (r: Iter<T>)
      ensures r.source == source + other
    {
      var a := new Cursor(source);
      var b := new Cursor(other);
      var out := Iterium.Chain(a, b);
      r := Iter(out);
    }

    method Count() returns (n: nat)
      ensures n == |source|
    {
      var it := new Cursor(source);
      n := Iterium.Count(it);
    }

    method Enumerate() returns (r: Iter<(nat, T)>)
      ensures r.source == Seqs.EnumerateFrom(0, source)
    {
      var it := new Cursor(source);
      var out := Iterium.Enumerate(it);
      r := Iter(out);
    }

    method Filter(p: T -> bool) returns (r: Iter<T>)
      ensures r.source == Seqs.Filter(p, source)
    {
      var it := new Cursor(source);
      var out := Iterium.Filter(p, it);
      r := Iter(out);
    }

    method Find(p: T -> bool) returns (r: Option<T>)
      ensures var k := Seqs.IndexWhere(p, source);
        r == (if k < |source| then Some(source[k]) else None)
    {
      var it := new Cursor(source);
      r := Iterium.Find(p, it);
    }

    method Fold<S>(f: (S, T) -> S, init: S) returns (r: S)
      ensures r == Seqs.FoldLeft(f, init, source)
    {
      var it := new Cursor(source);
      r := Iterium.Fold(f, init, it);
    }

    method First() returns (r: Option<T>)
      ensures r == (if |source| > 0 then Some(source[0]) else None)
    {
      var it := new Cursor(source);
      r := Iterium.First(it);
    }

    method Last() returns (r: Option<T>)
      ensures r == (if |source| > 0 then Some(source[|source| - 1]) else None)
    {
      var it := new Cursor(source);
      r := Iterium.Last(it);
    }

    method Map<U>(f: T -> U) returns (r: Iter<U>)
      ensures r.source == Seqs.Map(f, source)
    {
      var it := new Cursor(source);
      var out := Iterium.Map(f, it);
      r := Iter(out);
    }

    method Nth(n: nat) returns (r: Option<T>)
      ensures r == (if n < |source| then Some(source[n]) else None)
    {
      var it := new Cursor(source);
      r := Iterium.Nth(n, it);
    }

    method Skip(n: nat) returns (r: Iter<T>)
      ensures r.source == Seqs.Drop(n, source)
    {
      var it := new Cursor(source);
      var out := Iterium.Skip(n, it);
      r := Iter(out);
    }

    /** The element type of the result admits the stray `undefined` (None). */
    method SkipWhile(p: T -> bool) returns (r: Iter<Option<T>>)
      ensures Seqs.All(p, source) ==> r.source == [None]
      ensures !Seqs.All(p, source) ==> r.source == Lift(Seqs.DropWhile(p, source))
    {
      var it := new Cursor(source);
      var out := Iterium.SkipWhile(p, it);
      r := Iter(out);
    }

    method Take(n: nat) returns (r: Iter<T>)
      ensures r.source == Seqs.Take(n, source)
    {
      var it := new Cursor(source);
      var out := Iterium.Take(n, it);
      r := Iter(out);
    }

    method TakeWhile(p: T -> bool) returns (r: Iter<T>)
      ensures r.source == Seqs.TakeWhile(p, source)
    {
      var it := new Cursor(source);
      var out := Iterium.TakeWhile(p, it);
      r := Iter(out);
    }

    /** `collect`: the spread `[...this.source]`. */
    method Collect() returns (r: seq<T>)
      ensures r == source
    {
      var it := new Cursor(source);
      r := Drain(it);
    }
  }
}
