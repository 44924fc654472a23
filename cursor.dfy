/**
 * The iteration protocol on a finite source. A `Cursor` is an iterator:
 * `items` is everything its source will ever produce and `pos` is how many of
 * them `next()` has handed out. Once exhausted it keeps answering "done".
 * The ghost field `calls` counts every `next()` call, including those made
 * after the end, which do not move `pos`.
 */
module Cursors {
  import opened Options

  class Cursor<T> {
    const items: seq<T>
    var pos: nat
    ghost var calls: nat

    ghost predicate Valid()
      reads this
    {
      pos <= |items|
    }

    /** What the iterator has not produced yet. */
    ghost function Rest(): seq<T>
      reads this
      requires Valid()
    {
      items[pos..]
    }

    constructor (items: seq<T>)
      ensures Valid() && this.items == items && pos == 0 && calls == 0
    {
      this.items := items;
      pos := 0;
      calls := 0;
    }

    /** `next()`: `Some(x)` is `{done: false, value: x}`; `None` is `{done: true}`. */
    method Next() returns (r: Option<T>)
      requires Valid()
      modifies this
      ensures Valid() && calls == old(calls) + 1
      ensures old(pos) < |items| ==> r == Some(items[old(pos)]) && pos == old(pos) + 1
      ensures old(pos) == |items| ==> r == None && pos == old(pos)
    {
      calls := calls + 1;
      if pos < |items| {
        r := Some(items[pos]);
        pos := pos + 1;
      } else {
        r := None;
      }
    }
  }

  /** An iterable whose traversal hands back the very iterator it wraps, so a
      half-consumed iterator can be traversed again from where it stopped. */
  class Wrap<T> {
    const source: Cursor<T>

    constructor (source: Cursor<T>)
      ensures this.source == source
    {
      this.source := source;
    }

    /** `[Symbol.iterator]()`: no fresh iterator, the wrapped one itself. */
    method Iterator() returns (it: Cursor<T>)
      ensures it == source
    {
      it := source;
    }
  }

  /** The helper `wrap`. */
  method WrapIterator<T>(it: Cursor<T>) returns (w: Wrap<T>)
    ensures fresh(w) && w.source == it
  {
    w := new Wrap(it);
  }

  /** Traverses an iterator to its end, collecting what it produces: the
      meaning of `yield*` and of the spread `[...it]`. */
  method Drain<T>(c: Cursor<T>) returns (out: seq<T>)
    requires c.Valid()
    modifies c
    ensures c.Valid() && c.pos == |c.items|
    ensures out == old(c.Rest())
    ensures c.calls == old(c.calls) + |old(c.Rest())| + 1
  {
    ghost var start := c.pos;
    ghost var calls0 := c.calls;
    out := [];
    while true
      invariant c.Valid() && start <= c.pos
      invariant out == c.items[start..c.pos]
      invariant c.calls == calls0 + (c.pos - start)
      decreases |c.items| - c.pos
    {
      var next := c.Next();
      if next.None? {
        break;
      }
      out := out + [next.value];
    }
  }
}
