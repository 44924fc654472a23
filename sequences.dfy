/** The "no value" result of the lookups, used in place of the null sentinel. */
module Options {

  datatype Option<T> = None | Some(value: T)

  /** Every element of `s`, each marked as a present value. */
  function Lift<T>(s: seq<T>): (r: seq<Option<T>>)
    ensures |r| == |s|
    ensures forall i :: 0 <= i < |s| ==> r[i] == Some(s[i])
  {
    seq(|s|, i requires 0 <= i < |s| => Some(s[i]))
  }
}

/**
 * The meaning of every adapter and terminal operation on a finite source,
 * given as recursive definitions over the sequence of elements the source
 * produces. The step-by-step models in module Iterium are proved against
 * these definitions, and the lemmas below state what the definitions promise.
 */
module Seqs {

  function Min(a: int, b: int): int { if a <= b then a else b }

  /** The complement of a predicate. */
  function Not<T>(p: T -> bool): T -> bool { x => !p(x) }

  // ---------------------------------------------------------------------------
  // all, any and the first index where a predicate holds

  predicate All<T>(p: T -> bool, s: seq<T>) {
    s == [] || (p(s[0]) && All(p, s[1..]))
  }

  predicate Any<T>(p: T -> bool, s: seq<T>) {
    s != [] && (p(s[0]) || Any(p, s[1..]))
  }

  /** The position of the first element satisfying `p`, or |s| when none does. */
  function IndexWhere<T>(p: T -> bool, s: seq<T>): (k: nat)
    ensures k <= |s|
    ensures forall j :: 0 <= j < k ==> !p(s[j])
    ensures k < |s| ==> p(s[k])
  {
    if s == [] then 0
    else if p(s[0]) then 0
    else 1 + IndexWhere(p, s[1..])
  }

  lemma {:induction false} AllIff<T>(p: T -> bool, s: seq<T>)
    ensures All(p, s) <==> forall i :: 0 <= i < |s| ==> p(s[i])
  {
    if s != [] {
      AllIff(p, s[1..]);
      assert forall i :: 1 <= i < |s| ==> s[i] == s[1..][i - 1];
    }
  }

  lemma {:induction false} AnyIff<T>(p: T -> bool, s: seq<T>)
    ensures Any(p, s) <==> exists i :: 0 <= i < |s| && p(s[i])
  {
    if s != [] {
      AnyIff(p, s[1..]);
      assert forall i :: 1 <= i < |s| ==> s[i] == s[1..][i - 1];
    }
  }

  /** `all(p)` is the negation of `any(!p)`. */
  lemma {:induction false} AllNotAny<T>(p: T -> bool, s: seq<T>)
    ensures All(p, s) == !Any(Not(p), s)
  {
    if s != [] {
      AllNotAny(p, s[1..]);
    }
  }

  /** `all(p)` holds exactly when no element fails `p`. */
  lemma {:induction false} AllIndexWhere<T>(p: T -> bool, s: seq<T>)
    ensures All(p, s) <==> IndexWhere(Not(p), s) == |s|
  {
    AllIff(p, s);
  }

  /** `any(p)` holds exactly when some element satisfies `p`. */
  lemma {:induction false} AnyIndexWhere<T>(p: T -> bool, s: seq<T>)
    ensures Any(p, s) <==> IndexWhere(p, s) < |s|
  {
    AnyIff(p, s);
  }

  // ---------------------------------------------------------------------------
  // filter

  function Filter<T>(p: T -> bool, s: seq<T>): (r: seq<T>)
    ensures |r| <= |s|
  {
    if s == [] then []
    else (if p(s[0]) then [s[0]] else []) + Filter(p, s[1..])
  }

  /** Filtering a concatenation filters each part in order. */
  lemma {:induction false} FilterAppend<T>(p: T -> bool, a: seq<T>, b: seq<T>)
    ensures Filter(p, a + b) == Filter(p, a) + Filter(p, b)
  {
    if a == [] {
      assert a + b == b;
    } else {
      var head := if p(a[0]) then [a[0]] else [];
      calc {
        Filter(p, a + b);
        head + Filter(p, (a + b)[1..]);
        { assert (a + b)[1..] == a[1..] + b; }
        head + Filter(p, a[1..] + b);
        { FilterAppend(p, a[1..], b); }
        head + (Filter(p, a[1..]) + Filter(p, b));
        (head + Filter(p, a[1..])) + Filter(p, b);
      }
    }
  }

  /** The output holds exactly the source elements that satisfy `p`. */
  lemma {:induction false} FilterIn<T>(p: T -> bool, s: seq<T>, x: T)
    ensures x in Filter(p, s) <==> x in s && p(x)
  {
    if s != [] {
      FilterIn(p, s[1..], x);
      assert s == [s[0]] + s[1..];
    }
  }

  /** Every element of the output satisfies `p`. */
  lemma {:induction false} FilterAll<T>(p: T -> bool, s: seq<T>)
    ensures All(p, Filter(p, s))
  {
    if s != [] {
      FilterAll(p, s[1..]);
      var rest := Filter(p, s[1..]);
      var r := Filter(p, s);
      if p(s[0]) {
        assert r == [s[0]] + rest;
        assert r[0] == s[0] && r[1..] == rest;
      } else {
        assert r == [] + rest == rest;
      }
    }
  }

  /** A source whose every element satisfies `p` passes through unchanged. */
  lemma {:induction false} FilterKeepsAll<T>(p: T -> bool, s: seq<T>)
    requires All(p, s)
    ensures Filter(p, s) == s
  {
    if s != [] {
      FilterKeepsAll(p, s[1..]);
      assert s == [s[0]] + s[1..];
    }
  }

  // ---------------------------------------------------------------------------
  // map

  function Map<T, U>(f: T -> U, s: seq<T>): (r: seq<U>)
    ensures |r| == |s|
  {
    if s == [] then [] else [f(s[0])] + Map(f, s[1..])
  }

  /** Output position `i` is `f` of source position `i`. */
  lemma {:induction false} MapAt<T, U>(f: T -> U, s: seq<T>, i: nat)
    requires i < |s|
    ensures Map(f, s)[i] == f(s[i])
  {
    if i > 0 {
      MapAt(f, s[1..], i - 1);
    }
  }

  lemma {:induction false} MapAppend<T, U>(f: T -> U, a: seq<T>, b: seq<T>)
    ensures Map(f, a + b) == Map(f, a) + Map(f, b)
  {
    if a == [] {
      assert a + b == b;
    } else {
      assert (a + b)[0] == a[0];
      assert (a + b)[1..] == a[1..] + b;
      MapAppend(f, a[1..], b);
    }
  }

  // ---------------------------------------------------------------------------
  // take and skip

  function Take<T>(n: nat, s: seq<T>): seq<T> {
    if n == 0 || s == [] then [] else [s[0]] + Take(n - 1, s[1..])
  }

  function Drop<T>(n: nat, s: seq<T>): seq<T> {
    if n == 0 || s == [] then s else Drop(n - 1, s[1..])
  }

  /** `take(n)` yields the first min(n, |s|) elements. */
  lemma {:induction false} TakeIsPrefix<T>(n: nat, s: seq<T>)
    ensures Take(n, s) == s[..Min(n, |s|)]
  {
    if n != 0 && s != [] {
      TakeIsPrefix(n - 1, s[1..]);
      assert s[..Min(n, |s|)] == [s[0]] + s[1..][..Min(n - 1, |s| - 1)];
    }
  }

  /** `skip(n)` yields what follows the first min(n, |s|) elements. */
  lemma {:induction false} DropIsSuffix<T>(n: nat, s: seq<T>)
    ensures Drop(n, s) == s[Min(n, |s|)..]
    ensures n >= |s| ==> Drop(n, s) == []
  {
    if n != 0 && s != [] {
      DropIsSuffix(n - 1, s[1..]);
      assert s[1..][Min(n - 1, |s| - 1)..] == s[Min(n, |s|)..];
    }
  }

  /** `take(n)` followed by `skip(n)` gives back the whole source. */
  lemma {:induction false} TakeDrop<T>(n: nat, s: seq<T>)
    ensures Take(n, s) + Drop(n, s) == s
  {
    TakeIsPrefix(n, s);
    DropIsSuffix(n, s);
  }

  // ---------------------------------------------------------------------------
  // takeWhile and skipWhile

  function TakeWhile<T>(p: T -> bool, s: seq<T>): seq<T> {
    if s == [] || !p(s[0]) then [] else [s[0]] + TakeWhile(p, s[1..])
  }

  function DropWhile<T>(p: T -> bool, s: seq<T>): seq<T> {
    if s == [] || !p(s[0]) then s else DropWhile(p, s[1..])
  }

  /** `takeWhile(p)` stops right before the first element failing `p`. */
  lemma {:induction false} TakeWhileIsPrefix<T>(p: T -> bool, s: seq<T>)
    ensures TakeWhile(p, s) == s[..IndexWhere(Not(p), s)]
  {
    if s != [] && p(s[0]) {
      TakeWhileIsPrefix(p, s[1..]);
      assert s[..IndexWhere(Not(p), s)] == [s[0]] + s[1..][..IndexWhere(Not(p), s[1..])];
    }
  }

  /** `skipWhile(p)` starts at the first element failing `p`, that element included. */
  lemma {:induction false} DropWhileIsSuffix<T>(p: T -> bool, s: seq<T>)
    ensures DropWhile(p, s) == s[IndexWhere(Not(p), s)..]
  {
    if s != [] && p(s[0]) {
      DropWhileIsSuffix(p, s[1..]);
      assert s[1..][IndexWhere(Not(p), s[1..])..] == s[IndexWhere(Not(p), s)..];
    }
  }

  /** Once the first failing element is known, the suffix starts there. */
  lemma {:induction false} DropWhileAt<T>(p: T -> bool, s: seq<T>, k: nat)
    requires k < |s| && !p(s[k])
    requires forall j :: 0 <= j < k ==> p(s[j])
    ensures DropWhile(p, s) == s[k..]
    ensures !All(p, s)
  {
    DropWhileIsSuffix(p, s);
    AllIff(p, s);
  }

  lemma {:induction false} TakeWhileDropWhile<T>(p: T -> bool, s: seq<T>)
    ensures TakeWhile(p, s) + DropWhile(p, s) == s
  {
    TakeWhileIsPrefix(p, s);
    DropWhileIsSuffix(p, s);
  }

  /** `takeWhile(p)` is the longest prefix whose every element satisfies `p`. */
  lemma {:induction false} TakeWhileLongest<T>(p: T -> bool, s: seq<T>)
    ensures All(p, TakeWhile(p, s))
    ensures |TakeWhile(p, s)| < |s| ==> !p(s[|TakeWhile(p, s)|])
  {
    TakeWhileIsPrefix(p, s);
    var t := TakeWhile(p, s);
    assert forall i :: 0 <= i < |t| ==> t[i] == s[i];
    AllIff(p, t);
  }

  /** The suffix is empty exactly when every element satisfies `p`, and
      otherwise its head is the first element that fails `p`. */
  lemma {:induction false} DropWhileHead<T>(p: T -> bool, s: seq<T>)
    ensures DropWhile(p, s) == [] <==> All(p, s)
    ensures DropWhile(p, s) != [] ==> !p(DropWhile(p, s)[0])
  {
    DropWhileIsSuffix(p, s);
    AllIndexWhere(p, s);
  }

  // ---------------------------------------------------------------------------
  // enumerate

  /** The source paired with consecutive indices counted from `i`. */
  function EnumerateFrom<T>(i: nat, s: seq<T>): (r: seq<(nat, T)>)
    ensures |r| == |s|
    decreases s
  {
    if s == [] then [] else [(i, s[0])] + EnumerateFrom(i + 1, s[1..])
  }

  /** Output position `j` is the pair (i + j, s[j]). */
  lemma {:induction false} EnumerateAt<T>(i: nat, s: seq<T>, j: nat)
    requires j < |s|
    ensures EnumerateFrom(i, s)[j] == (i + j, s[j])
    decreases s
  {
    if j > 0 {
      EnumerateAt(i + 1, s[1..], j - 1);
    }
  }

  lemma {:induction false} EnumerateAppend<T>(i: nat, a: seq<T>, b: seq<T>)
    ensures EnumerateFrom(i, a + b) == EnumerateFrom(i, a) + EnumerateFrom(i + |a|, b)
    decreases a
  {
    if a == [] {
      assert a + b == b;
    } else {
      assert (a + b)[0] == a[0];
      assert (a + b)[1..] == a[1..] + b;
      EnumerateAppend(i + 1, a[1..], b);
    }
  }

  // ---------------------------------------------------------------------------
  // fold

  /** The left fold: `init` on the empty source, FoldLeft(f, f(init, x), xs) on x::xs. */
  function FoldLeft<S, T>(f: (S, T) -> S, init: S, s: seq<T>): S {
    if s == [] then init else FoldLeft(f, f(init, s[0]), s[1..])
  }

  /** Folding a concatenation folds the second part from the first part's result. */
  lemma {:induction false} FoldLeftAppend<S, T>(f: (S, T) -> S, init: S, a: seq<T>, b: seq<T>)
    ensures FoldLeft(f, init, a + b) == FoldLeft(f, FoldLeft(f, init, a), b)
  {
    if a == [] {
      assert a + b == b;
    } else {
      assert (a + b)[0] == a[0];
      assert (a + b)[1..] == a[1..] + b;
      FoldLeftAppend(f, f(init, a[0]), a[1..], b);
    }
  }

  /** Counting the elements is the fold that adds one per element. */
  lemma {:induction false} CountIsFold<T>(k: int, s: seq<T>)
    ensures FoldLeft((n: int, x: T) => n + 1, k, s) == k + |s|
    decreases s
  {
    if s != [] {
      CountIsFold(k + 1, s[1..]);
    }
  }
}
