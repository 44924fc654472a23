# iterium, modelled in Dafny

iterium is a small TypeScript toolkit for lazy sequences. It has three parts.
The free functions are the lazy adapters `chain`, `enumerate`, `filter`,
`map`, `skip`, `skipWhile`, `take` and `takeWhile`, and the terminal
operations `all`, `any`, `count`, `find`, `fold`, `first`, `last` and `nth`.
The fluent class `Iter` forwards each method to the matching free function
and adds `collect`. The class `Wrap` and its helper `wrap` let a
half-consumed iterator be traversed again from where it stopped.

The model has five modules:

- `Options` (sequences.dfy): `Option<T>`, which stands for "no value" in
  place of JavaScript's `null`. It also has `Lift`, which marks each element
  as a present value.
- `Seqs` (sequences.dfy): the meaning of each operation on a finite source,
  as a recursive definition over the sequence the source produces (`All`,
  `Any`, `IndexWhere`, `Filter`, `Map`, `Take`, `Drop`, `TakeWhile`,
  `DropWhile`, `EnumerateFrom`, `FoldLeft`). The lemmas beside them state
  what these definitions promise: prefixes and suffixes, splits, membership,
  order, pointwise and index properties, and the all/any duality.
- `Cursors` (cursor.dfy): the iteration protocol. A `Cursor` is an iterator
  with a fixed `items` sequence and a mutable position `pos`. Its `Next`
  returns `Some(x)` for `{done: false, value: x}` and `None` for
  `{done: true}`, and it keeps answering `None` once exhausted. `Wrap`,
  `WrapIterator` (the helper `wrap`) and `Drain` are here too. `Drain` gives
  the meaning of `yield*` and of the spread `[...it]`.
- `Iterium` (iterium.dfy): every free function is a method that runs the
  source's loop step by step on a `Cursor`. Each method's postcondition gives
  two things. One is the result, as a `Seqs` definition of what the cursor
  still had to produce. The other is how far the method advanced the
  cursor, which tells which elements it pulled and which it left unread.
  Adapters are run to completion and return the sequence they yield.
- `Fluent` (fluent.dfy): `Iter` is a datatype over its source. The exported
  `iter` is just its constructor. Each method opens a fresh cursor on the
  source, calls the free function and wraps any yielded sequence in a new
  `Iter`.
- `Scenarios` (scenarios.dfy): client methods. Some state properties that
  relate several operations, for every source. The others are the
  repository's test scenarios, proved from the contracts alone.

Two behaviours of the code are modelled as written. They differ from what a
reader of the documented behaviour would expect:

- `skipWhile` on a source whose every element satisfies the predicate (or
  on an empty one) does not yield nothing. It yields one `undefined`, the
  `value` of the final `{done: true}` result. The model yields `[None]`
  there, so the element type of `skipWhile`'s output is `Option<T>`.
- `take(n)` pulls one element beyond the n it yields before it stops, and
  `take(0)` pulls one. `Iterium.Take` states that it advances the iterator
  by min(n + 1, remaining).

## Model

| member | source | states |
|---|---|---|
| `Options.Lift` | src/index.ts:213-214 | marks each element skipWhile re-emits as a present value (Some), position by position and with the same length |
| `Seqs.All` | src/index.ts:99-106 | definition, no contract; see `Seqs.AllIff` |
| `Seqs.Any` | src/index.ts:108-115 | definition, no contract; see `Seqs.AnyIff` |
| `Seqs.IndexWhere` | src/index.ts:146-153 | the first position whose element satisfies the predicate, or the length when none does; every earlier element fails it |
| `Seqs.AllIff` | src/index.ts:99-106 | all(p) holds exactly when every element satisfies p, so it is true on the empty source |
| `Seqs.AnyIff` | src/index.ts:108-115 | any(p) holds exactly when some element satisfies p, so it is false on the empty source |
| `Seqs.AllNotAny` | src/index.ts:99-115 | all(p) equals the negation of any(not p) |
| `Seqs.AllIndexWhere` | src/index.ts:99-106 | all(p) holds exactly when no element fails p |
| `Seqs.AnyIndexWhere` | src/index.ts:108-115 | any(p) holds exactly when a first satisfying position exists |
| `Seqs.Filter` | src/index.ts:138-144 | filter never yields more elements than the source has |
| `Seqs.FilterAppend` | src/index.ts:138-144 | filtering a concatenation filters each part and keeps them in order |
| `Seqs.FilterIn` | src/index.ts:138-144 | an element is in the output exactly when it is in the source and satisfies p |
| `Seqs.FilterAll` | src/index.ts:138-144 | every element of filter(p)'s output satisfies p |
| `Seqs.FilterKeepsAll` | src/index.ts:138-144 | a source whose every element satisfies p passes through filter(p) unchanged |
| `Seqs.Map` | src/index.ts:178-182 | map preserves the length |
| `Seqs.MapAt` | src/index.ts:178-182 | output position i is f applied to source position i |
| `Seqs.MapAppend` | src/index.ts:178-182 | mapping a concatenation maps each part in order |
| `Seqs.Take` | src/index.ts:217-226 | definition, no contract; see `Seqs.TakeIsPrefix` |
| `Seqs.Drop` | src/index.ts:194-201 | definition, no contract; see `Seqs.DropIsSuffix` |
| `Seqs.TakeIsPrefix` | src/index.ts:217-226 | take(n) yields the first min(n, length) elements |
| `Seqs.DropIsSuffix` | src/index.ts:194-201 | skip(n) yields what follows the first min(n, length) elements, and nothing when n >= length |
| `Seqs.TakeDrop` | src/index.ts:194-226 | take(n) followed by skip(n) is the whole source |
| `Seqs.TakeWhile` | src/index.ts:228-236 | definition, no contract; see `Seqs.TakeWhileIsPrefix` |
| `Seqs.DropWhile` | src/index.ts:203-215 | definition, no contract; see `Seqs.DropWhileIsSuffix` |
| `Seqs.TakeWhileIsPrefix` | src/index.ts:228-236 | takeWhile(p) is the prefix that ends right before the first element failing p |
| `Seqs.DropWhileIsSuffix` | src/index.ts:203-215 | the suffix skipWhile(p) re-emits starts at the first element failing p, that element included |
| `Seqs.DropWhileAt` | src/index.ts:203-215 | when position k is the first failing one, the suffix is the source from k on and not all elements satisfy p |
| `Seqs.TakeWhileDropWhile` | src/index.ts:203-236 | the takeWhile(p) prefix and the skipWhile(p) suffix together give the source |
| `Seqs.TakeWhileLongest` | src/index.ts:228-236 | every element of takeWhile(p) satisfies p, and the element right after it, if any, fails p |
| `Seqs.DropWhileHead` | src/index.ts:203-215 | the suffix is empty exactly when all elements satisfy p; otherwise its head fails p |
| `Seqs.EnumerateFrom` | src/index.ts:130-136 | enumerate preserves the length |
| `Seqs.EnumerateAt` | src/index.ts:130-136 | output position j is the pair (i + j, s[j]): indices start at i and step by 1 |
| `Seqs.EnumerateAppend` | src/index.ts:130-136 | enumerating a concatenation numbers the second part from where the first stopped |
| `Seqs.FoldLeft` | src/index.ts:155-161 | definition, no contract; see `Seqs.FoldLeftAppend` |
| `Seqs.FoldLeftAppend` | src/index.ts:155-161 | the fold of a concatenation folds the second part starting from the fold of the first |
| `Seqs.CountIsFold` | src/index.ts:122-128 | counting is the fold that adds one per element |
| `Cursors.Cursor.constructor` | src/index.ts:8-12 | a new iterator over a sequence starts before its first item |
| `Cursors.Cursor.Next` | src/index.ts:195-197 | next() hands out the next item and advances by one, or reports done and stays done; every call is counted |
| `Cursors.Wrap.constructor` | src/index.ts:86-88 | a Wrap holds the iterator it is given |
| `Cursors.Wrap.Iterator` | src/index.ts:90-92 | traversing a Wrap hands back the wrapped iterator itself, not a fresh one |
| `Cursors.WrapIterator` | src/index.ts:95-97 | wrap builds a new Wrap around the given iterator |
| `Cursors.Drain` | src/index.ts:117-120 | yield* produces exactly what the iterator still had and exhausts it, with one next() call per element plus the final "done" |
| `Iterium.All` | src/index.ts:99-106 | all's result, and that it pulls up to and including the first failing element and no further |
| `Iterium.Any` | src/index.ts:108-115 | any's result, and that it pulls up to and including the first satisfying element and no further |
| `Iterium.Count` | src/index.ts:122-128 | count returns the number of remaining elements as an unbounded integer and exhausts the iterator |
| `Iterium.Find` | src/index.ts:146-153 | find returns Some(first satisfying element) or None, and stops right after that element |
| `Iterium.Fold` | src/index.ts:155-161 | fold returns the left fold from the initial state over all remaining elements |
| `Iterium.First` | src/index.ts:163-168 | first returns Some(first element) or None on an exhausted iterator, pulling at most one element |
| `Iterium.Last` | src/index.ts:170-176 | last returns Some(final element) or None, pulling every element |
| `Iterium.Nth` | src/index.ts:184-192 | nth(n) returns Some(element n) when n < length, otherwise None, pulling at most n + 1 elements |
| `Iterium.Chain` | src/index.ts:117-120 | chain yields everything from a, then everything from b; if a and b are the same iterator, b adds nothing |
| `Iterium.Enumerate` | src/index.ts:130-136 | enumerate yields each element paired with its 0-based index |
| `Iterium.Filter` | src/index.ts:138-144 | filter yields exactly the filtered sequence |
| `Iterium.Map` | src/index.ts:178-182 | map yields exactly the mapped sequence |
| `Iterium.Skip` | src/index.ts:194-201 | skip(n) yields the source without its first min(n, length) elements and exhausts the iterator; it calls next() n times (even past the end), then once per element it yields through wrap, then once more for "done" |
| `Iterium.SkipWhile` | src/index.ts:203-215 | skipWhile yields the suffix from the first failing element when one exists, and the lone undefined ([None]) when none does |
| `Iterium.Take` | src/index.ts:217-226 | take(n) yields the first min(n, length) elements and pulls min(n + 1, length) |
| `Iterium.TakeWhile` | src/index.ts:228-236 | takeWhile yields the longest satisfying prefix and also pulls (and drops) the first failing element |
| `Fluent.Iter.Iterator` | src/index.ts:8-12 | traversing an Iter gives a fresh iterator over its source's items in order |
| `Fluent.Iter.All` | src/index.ts:14-16 | Iter.all is all over the source |
| `Fluent.Iter.Any` | src/index.ts:18-20 | Iter.any is any over the source |
| `Fluent.Iter.Chain` | src/index.ts:22-24 | Iter.chain is the concatenation of the source and the argument |
| `Fluent.Iter.Count` | src/index.ts:26-28 | Iter.count is the source's length |
| `Fluent.Iter.Enumerate` | src/index.ts:30-32 | Iter.enumerate is the source numbered from 0 |
| `Fluent.Iter.Filter` | src/index.ts:34-36 | Iter.filter is filter over the source |
| `Fluent.Iter.Find` | src/index.ts:38-40 | Iter.find is the first satisfying element or None |
| `Fluent.Iter.Fold` | src/index.ts:42-44 | Iter.fold is the left fold over the source |
| `Fluent.Iter.First` | src/index.ts:46-48 | Iter.first is the source's first element or None |
| `Fluent.Iter.Last` | src/index.ts:50-52 | Iter.last is the source's final element or None |
| `Fluent.Iter.Map` | src/index.ts:54-56 | Iter.map is map over the source |
| `Fluent.Iter.Nth` | src/index.ts:58-60 | Iter.nth(n) is element n or None |
| `Fluent.Iter.Skip` | src/index.ts:62-64 | Iter.skip(n) drops min(n, length) elements |
| `Fluent.Iter.SkipWhile` | src/index.ts:66-68 | Iter.skipWhile is the suffix from the first failing element, or [None] when none fails |
| `Fluent.Iter.Take` | src/index.ts:70-72 | Iter.take(n) keeps min(n, length) elements |
| `Fluent.Iter.TakeWhile` | src/index.ts:74-76 | Iter.takeWhile is the longest satisfying prefix |
| `Fluent.Iter.Collect` | src/index.ts:78-80 | collect materialises the source's elements, in order |
| `Scenarios.FilterThenAll` | src/index.ts:138-144 | filter(p) followed by all(p) is true for every source |
| `Scenarios.CountIsCollectLength` | src/index.ts:122-128 | count() equals the length of collect() |
| `Scenarios.TakeThenSkip` | src/index.ts:194-226 | take(n) has min(n, length) elements, and take(n) followed by skip(n) gives the source back |
| `Scenarios.TakeWhileThenSkipWhile` | src/index.ts:203-236 | takeWhile(p) followed by skipWhile(p) gives the source back when some element fails p; otherwise takeWhile gives the whole source and skipWhile the lone undefined |
| `Scenarios.EnumerateNumbersInOrder` | src/index.ts:130-136 | enumerate numbers the elements 0, 1, 2, ... element for element |
| `Scenarios.MapPointwise` | src/index.ts:178-182 | map(f) keeps the length and applies f position by position |
| `Scenarios.AllIsNotAnyNot` | src/index.ts:99-115 | Iter.all(p) is the negation of Iter.any(not p) |
| `Scenarios.ScenarioFilterOdd` | tests/index.mjs:65-69 | filtering [1,2,3,4] by oddness collects [1,3] |
| `Scenarios.ScenarioSkipWhile` | tests/index.mjs:149-153 | skipWhile(v < 3) on [1,2,3,4] collects 3 and 4 |
| `Scenarios.ScenarioTakeWhile` | tests/index.mjs:173-177 | takeWhile(v < 3) on [1,2,3,4] collects [1,2] |
| `Scenarios.ScenarioTakeAndSkip` | tests/index.mjs:131-171 | take 2/0/5 and skip 2/5 on [1,2,3,4] give [1,2], [], [1,2,3,4], [3,4], [] |
| `Scenarios.ScenarioNth` | tests/index.mjs:125-129 | nth(1) of [1,2,3,4] is 2 |
| `Scenarios.ScenarioFind` | tests/index.mjs:71-87 | find(even) is 2, find(v > 4) and find on [] are None |
| `Scenarios.ScenarioFirstAndLast` | tests/index.mjs:95-117 | first and last of [1,2,3,4] are 1 and 4, and both are None on [] |
| `Scenarios.ScenarioAllAndAny` | tests/index.mjs:4-38 | all(v > 0) is true, all(v > 1) is false, all on [] is true, any(v > 1) is true, any on [] is false |
| `Scenarios.ScenarioCountAndFold` | tests/index.mjs:48-93 | count of [1,2,3,4] is 4 and its sum by fold is 10 |
| `Scenarios.ScenarioChain` | tests/index.mjs:40-46 | [1,2,3,4] chained with [5,6,7,8] collects 1 to 8 |
| `Scenarios.ScenarioEnumerate` | tests/index.mjs:54-63 | enumerate of [1,2,3,4] collects (0,1), (1,2), (2,3), (3,4) |
| `Scenarios.ScenarioMap` | tests/index.mjs:119-123 | map(v * 2) of [1,2,3,4] collects [2,4,6,8] |

## Left out

- Laziness across a chain of adapters: each adapter runs to completion on its own iterator and returns everything it yields. The interleaving of pulls between several stacked adapters is not modelled. For each adapter alone, the model states how many elements it pulls (the extra pull of `take`, the dropped element of `takeWhile`).
- One-shot sources under `Iter`: the model's `Iter` holds a re-traversable sequence, like the arrays it is used on. Re-traversal and sharing of a stateful generator by several `Iter` views is single-consumer misuse with no defined behaviour, so it is not modelled. The adapters' results in `Iter` are likewise re-traversable, unlike the generators the code returns. A half-consumed iterator is modelled directly with `Cursor` and `Wrap`.
- The generator and iterator protocol itself (`function*`, coroutine suspension, `Symbol.iterator` lookups). The `return()` call that `for...of` makes on `break` or `return`, which closes a generator, is not modelled either.
- Infinite sources: every source is a finite sequence. `count`, `last`, `fold` and `collect` do not terminate on infinite ones.
- Exceptions thrown by callbacks: predicates and functions are total, pure Dafny functions.
- Negative, fractional or very large counts for `skip`, `take` and `nth`: `n` is an unbounded `nat`, while the code's `n` is a double. In the code, a negative `n` makes `nth` scan everything and return null, and makes `skip` and `take(n)` behave as for 0. Above 2^53, `n - 1` can round back to `n`, so the code's `skip(n)` never finishes its `next()` loop, while `Iterium.Skip` returns the empty suffix.
- The `null` returned by `find`, `first`, `last` and `nth` is `None`. So a found element that is itself `null` cannot be confused with "not found" in the model.
- Build tooling (rollup.config.js) and the test runner are not part of this model. The test file's "any" tests call `all`, so `Scenarios.ScenarioAllAndAny` also checks `any` directly.
