/** `fetch_block_children_paginated` and `fetch_block_children_recursive`:
    listing the children of a block page by page, then expanding every child
    that has children of its own, depth first.

    The remote API is a page source: a finite map from a request
    `(block id, start cursor)` to the page it answers with. A request the map
    has no page for fails, and the failure aborts the whole fetch. */
module Fetch {
  import opened Blocks

  /** The default `max_depth` of `fetch_block_children_recursive`. */
  const MaxDepth: nat := 50

  /** One answer of the children endpoint. */
  datatype Page = Page(results: seq<Block>, hasMore: bool, nextCursor: Option<string>)

  /** A request: the block whose children are listed and the start cursor
      sent with it (`None` when no cursor is sent). */
  type Key = (string, Option<string>)

  type PageSource = map<Key, Page>

  /** The result of a fetch: a value, or the request that had no answer. */
  datatype Outcome<T> = Ok(value: T) | Missing(key: Key)

  /** The start cursor actually sent: Python's `if next_cursor:` sends none
      for an absent or empty cursor. */
  function RequestCursor(c: Option<string>): Option<string>
  {
    if c.Some? && c.value != "" then c else None
  }

  // ---------------------------------------------------------------------
  // Pagination
  // ---------------------------------------------------------------------

  /** A listing: what it returns and the requests it made, in order. */
  datatype Listed = Listed(outcome: Outcome<seq<Block>>, calls: seq<Key>)

  /** `xs` put in front of a successful outcome; a failure stays a failure. */
  function Prepend<T>(xs: seq<T>, o: Outcome<seq<T>>): Outcome<seq<T>>
  {
    if o.Ok? then Ok(xs + o.value) else Missing(o.key)
  }

  lemma PrependNothing<T>(o: Outcome<seq<T>>)
    ensures Prepend([], o) == o
  {
    if o.Ok? {
      assert [] + o.value == o.value;
    }
  }

  lemma PrependTwice<T>(xs: seq<T>, ys: seq<T>, o: Outcome<seq<T>>)
    ensures Prepend(xs, Prepend(ys, o)) == Prepend(xs + ys, o)
  {
    if o.Ok? {
      assert xs + (ys + o.value) == xs + ys + o.value;
    }
  }

  /** The cursor chain of `id` from request cursor `cursor`, following at
      most `fuel` requests; `None` when it has not ended by then. */
  function Chain(pages: PageSource, id: string, cursor: Option<string>, fuel: nat): Option<Listed>
    decreases fuel
  {
    var key := (id, cursor);
    if fuel == 0 then None
    else if key !in pages then Some(Listed(Missing(key), [key]))
    else
      var page := pages[key];
      if !page.hasMore then Some(Listed(Ok(page.results), [key]))
      else
        match Chain(pages, id, RequestCursor(page.nextCursor), fuel - 1)
        case None => None
        case Some(rest) => Some(Listed(Prepend(page.results, rest.outcome), [key] + rest.calls))
  }

  /** The chain of `id` ends: one request per page of the source, plus one,
      suffice (`ChainEndsWithinPages` shows that more never help). */
  predicate PaginationEnds(pages: PageSource, id: string)
  {
    Chain(pages, id, None, |pages| + 1).Some?
  }

  /** Every block's cursor chain ends: the source has no cursor cycle. */
  ghost predicate AllChainsEnd(pages: PageSource)
  {
    forall id :: PaginationEnds(pages, id)
  }

  /** The full listing of the children of `id`, starting without a cursor. */
  function Listing(pages: PageSource, id: string): Listed
    requires PaginationEnds(pages, id)
  {
    Chain(pages, id, None, |pages| + 1).value
  }

  /** The results of the pages answering `keys`, concatenated in order. */
  function Collected(pages: PageSource, keys: seq<Key>): seq<Block>
  {
    if keys == [] then []
    else (if keys[0] in pages then pages[keys[0]].results else []) + Collected(pages, keys[1..])
  }

  /** The requests of a chain follow the cursors: the first carries the
      starting cursor, every page but the last says it has more and names
      the cursor of the next request, and the chain stops at the first page
      without more (or at the first request without an answer). On success
      the result is the pages' results concatenated in request order. */
  lemma {:induction false} ChainShape(pages: PageSource, id: string, cursor: Option<string>, fuel: nat)
    requires Chain(pages, id, cursor, fuel).Some?
    ensures var l := Chain(pages, id, cursor, fuel).value;
            && |l.calls| >= 1 && l.calls[0] == (id, cursor)
            && (forall j :: 0 <= j < |l.calls| - 1 ==>
                  l.calls[j] in pages && pages[l.calls[j]].hasMore
                  && l.calls[j + 1] == (id, RequestCursor(pages[l.calls[j]].nextCursor)))
            && (l.outcome.Ok? ==>
                  l.calls[|l.calls| - 1] in pages && !pages[l.calls[|l.calls| - 1]].hasMore
                  && l.outcome.value == Collected(pages, l.calls))
            && (l.outcome.Missing? ==>
                  l.outcome.key == l.calls[|l.calls| - 1] && l.outcome.key !in pages)
    decreases fuel
  {
    var key := (id, cursor);
    var l := Chain(pages, id, cursor, fuel).value;
    if key in pages && pages[key].hasMore {
      var next := RequestCursor(pages[key].nextCursor);
      ChainShape(pages, id, next, fuel - 1);
      var rest := Chain(pages, id, next, fuel - 1).value;
      assert l.calls == [key] + rest.calls;
      assert l.calls[1..] == rest.calls;
      if l.outcome.Ok? {
        assert Collected(pages, l.calls) == pages[key].results + Collected(pages, rest.calls);
      }
    } else if key in pages {
      assert Collected(pages, l.calls) == pages[key].results + Collected(pages, []);
    }
  }

  /** A chain that ends within some number of requests ends the same way
      with any larger allowance. */
  lemma {:induction false} ChainFuelMono(pages: PageSource, id: string, cursor: Option<string>, fuel: nat, more: nat)
    requires Chain(pages, id, cursor, fuel).Some? && fuel <= more
    ensures Chain(pages, id, cursor, more) == Chain(pages, id, cursor, fuel)
    decreases fuel
  {
    var key := (id, cursor);
    if key in pages && pages[key].hasMore {
      ChainFuelMono(pages, id, RequestCursor(pages[key].nextCursor), fuel - 1, more - 1);
    }
  }

  /** A chain never makes more requests than its allowance, and an
      allowance of exactly its number of requests is enough. */
  lemma {:induction false} ChainTight(pages: PageSource, id: string, cursor: Option<string>, fuel: nat)
    requires Chain(pages, id, cursor, fuel).Some?
    ensures |Chain(pages, id, cursor, fuel).value.calls| <= fuel
    ensures Chain(pages, id, cursor, |Chain(pages, id, cursor, fuel).value.calls|) == Chain(pages, id, cursor, fuel)
    decreases fuel
  {
    var key := (id, cursor);
    if key in pages && pages[key].hasMore {
      ChainTight(pages, id, RequestCursor(pages[key].nextCursor), fuel - 1);
    }
  }

  /** The part of a chain from its `i`-th request on is the chain from that
      request's cursor. */
  lemma {:induction false} ChainSuffix(pages: PageSource, id: string, cursor: Option<string>, fuel: nat, i: nat)
    returns (at: Option<string>)
    requires Chain(pages, id, cursor, fuel).Some? && i < |Chain(pages, id, cursor, fuel).value.calls|
    ensures i < fuel
    ensures Chain(pages, id, cursor, fuel).value.calls[i] == (id, at)
    ensures Chain(pages, id, at, fuel - i).Some?
    ensures Chain(pages, id, at, fuel - i).value.calls == Chain(pages, id, cursor, fuel).value.calls[i..]
    decreases i
  {
    var key := (id, cursor);
    if i == 0 {
      at := cursor;
    } else {
      var next := RequestCursor(pages[key].nextCursor);
      var l := Chain(pages, id, cursor, fuel).value;
      var rest := Chain(pages, id, next, fuel - 1).value;
      assert l.calls == [key] + rest.calls;
      at := ChainSuffix(pages, id, next, fuel - 1, i - 1);
      assert rest.calls[i - 1..] == l.calls[i..];
    }
  }

  /** A chain that ends never repeats a request: the same request would
      start the same chain again. */
  lemma ChainCallsDistinct(pages: PageSource, id: string, cursor: Option<string>, fuel: nat)
    requires Chain(pages, id, cursor, fuel).Some?
    ensures var calls := Chain(pages, id, cursor, fuel).value.calls;
            forall i, j :: 0 <= i < j < |calls| ==> calls[i] != calls[j]
  {
    var calls := Chain(pages, id, cursor, fuel).value.calls;
    forall i, j | 0 <= i < j < |calls|
      ensures calls[i] != calls[j]
    {
      var ci := ChainSuffix(pages, id, cursor, fuel, i);
      var cj := ChainSuffix(pages, id, cursor, fuel, j);
      if calls[i] == calls[j] {
        ChainFuelMono(pages, id, cj, fuel - j, fuel - i);
        assert false;
      }
    }
  }

  /** Distinct requests drawn from a set are no more than its size. */
  lemma {:induction false} DistinctWithin(keys: seq<Key>, dom: set<Key>)
    requires forall i, j :: 0 <= i < j < |keys| ==> keys[i] != keys[j]
    requires forall i :: 0 <= i < |keys| ==> keys[i] in dom
    ensures |keys| <= |dom|
    decreases |keys|
  {
    if keys != [] {
      var rest := keys[1..];
      forall i | 0 <= i < |rest|
        ensures rest[i] in dom - {keys[0]}
      {
        assert rest[i] == keys[i + 1];
      }
      DistinctWithin(rest, dom - {keys[0]});
    }
  }

  /** A cursor chain that ends at all ends within one request per page of
      the source plus one: every request but the last is answered by a
      page, and no request repeats. So `PaginationEnds` is exactly "the
      chain is finite". */
  lemma ChainEndsWithinPages(pages: PageSource, id: string, cursor: Option<string>, fuel: nat)
    requires Chain(pages, id, cursor, fuel).Some?
    ensures Chain(pages, id, cursor, |pages| + 1) == Chain(pages, id, cursor, fuel)
  {
    var calls := Chain(pages, id, cursor, fuel).value.calls;
    ChainShape(pages, id, cursor, fuel);
    ChainCallsDistinct(pages, id, cursor, fuel);
    var answered := calls[..|calls| - 1];
    forall i | 0 <= i < |answered|
      ensures answered[i] in pages.Keys
    {
      assert answered[i] == calls[i];
    }
    DistinctWithin(answered, pages.Keys);
    ChainTight(pages, id, cursor, fuel);
    ChainFuelMono(pages, id, cursor, |calls|, |pages| + 1);
  }

  // ---------------------------------------------------------------------
  // Recursive expansion
  // ---------------------------------------------------------------------

  /** An expansion: what it returns, the requests it made, in order, and the
      active path it leaves behind. */
  datatype Expanded<T> = Expanded(outcome: Outcome<T>, calls: seq<Key>, path: set<string>)

  /** The recursion measure: the levels left before the depth guard. */
  function Rank(depth: nat, maxDepth: nat): nat
  {
    if depth > maxDepth then 0 else maxDepth - depth + 1
  }

  /** A child that claims children but is not descended into: its id is
      absent or empty, or it is already on the active path. */
  predicate Guarded(b: Block, path: set<string>)
  {
    b.id.None? || b.id.value == "" || b.id.value in path
  }

  /** `fetch_block_children_recursive(block_id, depth, max_depth, path)`. */
  function Expand(pages: PageSource, id: string, depth: nat, maxDepth: nat, path: set<string>): Expanded<seq<Block>>
    requires AllChainsEnd(pages)
    decreases Rank(depth, maxDepth), 2, 0
  {
    if depth > maxDepth then Expanded(Ok([]), [], path)
    else
      assert PaginationEnds(pages, id);
      var listed := Listing(pages, id);
      if listed.outcome.Missing? then Expanded(Missing(listed.outcome.key), listed.calls, path)
      else
        var kids := ExpandKids(pages, listed.outcome.value, depth, maxDepth, path);
        Expanded(kids.outcome, listed.calls + kids.calls, kids.path)
  }

  /** The loop over the listed children, first to last; the first failure
      ends it. */
  function ExpandKids(pages: PageSource, kids: seq<Block>, depth: nat, maxDepth: nat, path: set<string>): Expanded<seq<Block>>
    requires AllChainsEnd(pages) && depth <= maxDepth
    decreases Rank(depth, maxDepth), 1, |kids|
  {
    if kids == [] then Expanded(Ok([]), [], path)
    else
      var step := ExpandChild(pages, kids[0], depth, maxDepth, path);
      if step.outcome.Missing? then Expanded(Missing(step.outcome.key), step.calls, step.path)
      else
        var rest := ExpandKids(pages, kids[1..], depth, maxDepth, step.path);
        Expanded(Prepend([step.outcome.value], rest.outcome), step.calls + rest.calls, rest.path)
  }

  /** One iteration of that loop: a child without children is kept as it
      is; a guarded one gets an empty child list; any other is put on the
      path, expanded one level deeper, given the result as its children and
      taken off the path again. */
  function ExpandChild(pages: PageSource, b: Block, depth: nat, maxDepth: nat, path: set<string>): Expanded<Block>
    requires AllChainsEnd(pages) && depth <= maxDepth
    decreases Rank(depth, maxDepth), 0, 0
  {
    if !b.hasChildren then Expanded(Ok(b), [], path)
    else if Guarded(b, path) then Expanded(Ok(b.(children := [], childrenAttached := true)), [], path)
    else
      var cid := b.id.value;
      var sub := Expand(pages, cid, depth + 1, maxDepth, path + {cid});
      if sub.outcome.Missing? then Expanded(Missing(sub.outcome.key), sub.calls, sub.path)
      else Expanded(Ok(b.(children := sub.outcome.value, childrenAttached := true)), sub.calls, sub.path - {cid})
  }

  /** A finished prefix `done` and the requests `made` for it, followed by
      the expansion of the rest. */
  function Then(done: seq<Block>, made: seq<Key>, rest: Expanded<seq<Block>>): Expanded<seq<Block>>
  {
    Expanded(Prepend(done, rest.outcome), made + rest.calls, rest.path)
  }

  /** One successful iteration of the child loop moves a child from the
      rest of the list to the finished prefix. */
  lemma KidsStep(pages: PageSource, kids: seq<Block>, i: nat, depth: nat, maxDepth: nat, path: set<string>,
                 done: seq<Block>, made: seq<Key>)
    requires AllChainsEnd(pages) && depth <= maxDepth && i < |kids|
    requires ExpandChild(pages, kids[i], depth, maxDepth, path).outcome.Ok?
    ensures var step := ExpandChild(pages, kids[i], depth, maxDepth, path);
            Then(done, made, ExpandKids(pages, kids[i..], depth, maxDepth, path))
              == Then(done + [step.outcome.value], made + step.calls, ExpandKids(pages, kids[i + 1..], depth, maxDepth, step.path))
  {
    var step := ExpandChild(pages, kids[i], depth, maxDepth, path);
    assert kids[i..][0] == kids[i] && kids[i..][1..] == kids[i + 1..];
    var rest := ExpandKids(pages, kids[i + 1..], depth, maxDepth, step.path);
    assert made + (step.calls + rest.calls) == made + step.calls + rest.calls;
    if rest.outcome.Ok? {
      assert done + ([step.outcome.value] + rest.outcome.value) == done + [step.outcome.value] + rest.outcome.value;
    }
  }

  /** A failing iteration of the child loop ends the loop with that failure. */
  lemma KidsStepFails(pages: PageSource, kids: seq<Block>, i: nat, depth: nat, maxDepth: nat, path: set<string>)
    requires AllChainsEnd(pages) && depth <= maxDepth && i < |kids|
    requires ExpandChild(pages, kids[i], depth, maxDepth, path).outcome.Missing?
    ensures var step := ExpandChild(pages, kids[i], depth, maxDepth, path);
            ExpandKids(pages, kids[i..], depth, maxDepth, path) == Expanded(Missing(step.outcome.key), step.calls, step.path)
  {
    assert kids[i..][0] == kids[i];
  }

  /** A successful expansion leaves the active path as it found it; any
      expansion only ever adds to it (a failure leaves the ids of the
      blocks it was inside). */
  lemma {:induction false} ExpandPath(pages: PageSource, id: string, depth: nat, maxDepth: nat, path: set<string>)
    requires AllChainsEnd(pages)
    ensures var e := Expand(pages, id, depth, maxDepth, path);
            path <= e.path && (e.outcome.Ok? ==> e.path == path)
    decreases Rank(depth, maxDepth), 2, 0
  {
    if depth <= maxDepth {
      assert PaginationEnds(pages, id);
      var listed := Listing(pages, id);
      if listed.outcome.Ok? {
        ExpandKidsPath(pages, listed.outcome.value, depth, maxDepth, path);
      }
    }
  }

  lemma {:induction false} ExpandKidsPath(pages: PageSource, kids: seq<Block>, depth: nat, maxDepth: nat, path: set<string>)
    requires AllChainsEnd(pages) && depth <= maxDepth
    ensures var e := ExpandKids(pages, kids, depth, maxDepth, path);
            path <= e.path && (e.outcome.Ok? ==> e.path == path)
    decreases Rank(depth, maxDepth), 1, |kids|
  {
    if kids != [] {
      var step := ExpandChild(pages, kids[0], depth, maxDepth, path);
      ExpandChildPath(pages, kids[0], depth, maxDepth, path);
      if step.outcome.Ok? {
        ExpandKidsPath(pages, kids[1..], depth, maxDepth, step.path);
      }
    }
  }

  lemma {:induction false} ExpandChildPath(pages: PageSource, b: Block, depth: nat, maxDepth: nat, path: set<string>)
    requires AllChainsEnd(pages) && depth <= maxDepth
    ensures var e := ExpandChild(pages, b, depth, maxDepth, path);
            path <= e.path && (e.outcome.Ok? ==> e.path == path)
    decreases Rank(depth, maxDepth), 0, 0
  {
    if b.hasChildren && !Guarded(b, path) {
      var cid := b.id.value;
      ExpandPath(pages, cid, depth + 1, maxDepth, path + {cid});
    }
  }

  /** No block is listed while it is on the active path: every request of
      an expansion is for its own block or for a block not on the path it
      started with. */
  lemma {:induction false} ExpandSkipsAncestors(pages: PageSource, id: string, depth: nat, maxDepth: nat, path: set<string>)
    requires AllChainsEnd(pages)
    ensures var e := Expand(pages, id, depth, maxDepth, path);
            forall k :: k in e.calls ==> k.0 == id || k.0 !in path
    decreases Rank(depth, maxDepth), 2, 0
  {
    if depth <= maxDepth {
      assert PaginationEnds(pages, id);
      var listed := Listing(pages, id);
      ChainShape(pages, id, None, |pages| + 1);
      ListingCallsFor(pages, id, None, |pages| + 1);
      if listed.outcome.Ok? {
        ExpandKidsSkipsAncestors(pages, listed.outcome.value, depth, maxDepth, path);
      }
    }
  }

  lemma {:induction false} ExpandKidsSkipsAncestors(pages: PageSource, kids: seq<Block>, depth: nat, maxDepth: nat, path: set<string>)
    requires AllChainsEnd(pages) && depth <= maxDepth
    ensures var e := ExpandKids(pages, kids, depth, maxDepth, path);
            forall k :: k in e.calls ==> k.0 !in path
    decreases Rank(depth, maxDepth), 1, |kids|
  {
    if kids != [] {
      var step := ExpandChild(pages, kids[0], depth, maxDepth, path);
      ExpandChildSkipsAncestors(pages, kids[0], depth, maxDepth, path);
      if step.outcome.Ok? {
        ExpandChildPath(pages, kids[0], depth, maxDepth, path);
        ExpandKidsSkipsAncestors(pages, kids[1..], depth, maxDepth, step.path);
      }
    }
  }

  lemma {:induction false} ExpandChildSkipsAncestors(pages: PageSource, b: Block, depth: nat, maxDepth: nat, path: set<string>)
    requires AllChainsEnd(pages) && depth <= maxDepth
    ensures var e := ExpandChild(pages, b, depth, maxDepth, path);
            forall k :: k in e.calls ==> k.0 !in path
    decreases Rank(depth, maxDepth), 0, 0
  {
    if b.hasChildren && !Guarded(b, path) {
      var cid := b.id.value;
      ExpandSkipsAncestors(pages, cid, depth + 1, maxDepth, path + {cid});
    }
  }

  /** Every request of a cursor chain is for the chain's own block. */
  lemma {:induction false} ListingCallsFor(pages: PageSource, id: string, cursor: Option<string>, fuel: nat)
    requires Chain(pages, id, cursor, fuel).Some?
    ensures forall k :: k in Chain(pages, id, cursor, fuel).value.calls ==> k.0 == id
    decreases fuel
  {
    var key := (id, cursor);
    if key in pages && pages[key].hasMore {
      ListingCallsFor(pages, id, RequestCursor(pages[key].nextCursor), fuel - 1);
    }
  }

  /** A successful expansion of a child list keeps the listed children in
      their order and changes nothing but their `children` field: a child
      without children keeps no `children` field; a guarded child gets an
      empty list and no request is made for it; every other child carries
      the expansion of its own id one level deeper, on the path extended by
      that id. */
  lemma {:induction false} ExpandKidsShape(pages: PageSource, kids: seq<Block>, depth: nat, maxDepth: nat, path: set<string>)
    requires AllChainsEnd(pages) && depth <= maxDepth
    requires ExpandKids(pages, kids, depth, maxDepth, path).outcome.Ok?
    ensures var r := ExpandKids(pages, kids, depth, maxDepth, path).outcome.value;
            && |r| == |kids|
            && forall i :: 0 <= i < |kids| ==> ChildExpanded(pages, kids[i], r[i], depth, maxDepth, path)
    decreases |kids|
  {
    if kids != [] {
      var step := ExpandChild(pages, kids[0], depth, maxDepth, path);
      ExpandChildPath(pages, kids[0], depth, maxDepth, path);
      var rest := ExpandKids(pages, kids[1..], depth, maxDepth, step.path);
      ExpandKidsShape(pages, kids[1..], depth, maxDepth, path);
      var r := ExpandKids(pages, kids, depth, maxDepth, path).outcome.value;
      assert r == [step.outcome.value] + rest.outcome.value;
      ChildExpandedStep(pages, kids[0], depth, maxDepth, path);
      forall i | 1 <= i < |kids|
        ensures ChildExpanded(pages, kids[i], r[i], depth, maxDepth, path)
      {
        assert kids[i] == kids[1..][i - 1];
        assert r[i] == rest.outcome.value[i - 1];
      }
    }
  }

  /** What `ExpandKidsShape` says of one child `b` and its expansion `e`. */
  predicate ChildExpanded(pages: PageSource, b: Block, e: Block, depth: nat, maxDepth: nat, path: set<string>)
    requires AllChainsEnd(pages) && depth <= maxDepth
  {
    if !b.hasChildren then e == b
    else if Guarded(b, path) then e == b.(children := [], childrenAttached := true)
    else
      var sub := Expand(pages, b.id.value, depth + 1, maxDepth, path + {b.id.value});
      sub.outcome.Ok? && e == b.(children := sub.outcome.value, childrenAttached := true)
  }

  /** The loop never leaves a child with children but no "children" field:
      every child it touches gets the field. */
  lemma ExpandChildKeepsChildrenField(pages: PageSource, b: Block, depth: nat, maxDepth: nat, path: set<string>)
    requires AllChainsEnd(pages) && depth <= maxDepth
    requires ChildrenFieldAgrees(b)
    requires ExpandChild(pages, b, depth, maxDepth, path).outcome.Ok?
    ensures ChildrenFieldAgrees(ExpandChild(pages, b, depth, maxDepth, path).outcome.value)
    ensures b.hasChildren ==> ExpandChild(pages, b, depth, maxDepth, path).outcome.value.childrenAttached
  {
  }

  lemma ChildExpandedStep(pages: PageSource, b: Block, depth: nat, maxDepth: nat, path: set<string>)
    requires AllChainsEnd(pages) && depth <= maxDepth
    requires ExpandChild(pages, b, depth, maxDepth, path).outcome.Ok?
    ensures ChildExpanded(pages, b, ExpandChild(pages, b, depth, maxDepth, path).outcome.value, depth, maxDepth, path)
    ensures b.hasChildren && Guarded(b, path) ==> ExpandChild(pages, b, depth, maxDepth, path).calls == []
  {
  }

  // ---------------------------------------------------------------------
  // The fetcher
  // ---------------------------------------------------------------------

  /** A client of the page source that records every request it makes (the
      `calls` of the test double) and the shared `active_path` set of the
      recursive fetch. */
  class BlockFetcher {
    const pages: PageSource
    var calls: seq<Key>
    var activePath: set<string>

    constructor(pages: PageSource)
      ensures this.pages == pages && calls == [] && activePath == {}
    {
      this.pages := pages;
      calls := [];
      activePath := {};
    }

    /** `notion.blocks.children.list(block_id=id, start_cursor=cursor)` */
    method List(id: string, cursor: Option<string>) returns (r: Outcome<Page>)
      modifies this
      ensures calls == old(calls) + [(id, cursor)] && activePath == old(activePath)
      ensures (id, cursor) in pages ==> r == Ok(pages[(id, cursor)])
      ensures (id, cursor) !in pages ==> r == Missing((id, cursor))
    {
      calls := calls + [(id, cursor)];
      if (id, cursor) in pages {
        r := Ok(pages[(id, cursor)]);
      } else {
        r := Missing((id, cursor));
      }
    }

    /** `fetch_block_children_paginated(block_id)` */
    method FetchChildrenPaginated(id: string) returns (r: Outcome<seq<Block>>)
      requires PaginationEnds(pages, id)
      modifies this
      ensures r == Listing(pages, id).outcome
      ensures calls == old(calls) + Listing(pages, id).calls
      ensures activePath == old(activePath)
    {
      var results: seq<Block> := [];
      var nextCursor: Option<string> := None;
      ghost var fuel: nat := |pages| + 1;
      ghost var made: seq<Key> := [];
      PrependNothing(Listing(pages, id).outcome);
      assert [] + Listing(pages, id).calls == Listing(pages, id).calls;
      while true
        invariant Chain(pages, id, RequestCursor(nextCursor), fuel).Some?
        invariant Listing(pages, id) == ThenListed(results, made, Chain(pages, id, RequestCursor(nextCursor), fuel).value)
        invariant calls == old(calls) + made
        invariant activePath == old(activePath)
        decreases fuel
      {
        var cursor := RequestCursor(nextCursor);
        ghost var resultsBefore, madeBefore := results, made;
        var page := List(id, cursor);
        made := made + [(id, cursor)];
        if page.Missing? || !page.value.hasMore {
          ChainStops(pages, id, cursor, fuel, resultsBefore, madeBefore);
        }
        if page.Missing? {
          return Missing(page.key);
        }
        results := results + page.value.results;
        if !page.value.hasMore {
          return Ok(results);
        }
        ChainAdvance(pages, id, cursor, fuel, resultsBefore, madeBefore);
        nextCursor := page.value.nextCursor;
        fuel := fuel - 1;
      }
    }

    /** `fetch_block_children_recursive(block_id, depth, max_depth, active_path)`
        with `active_path` the fetcher's own set. */
    method FetchChildrenRecursive(id: string, depth: nat, maxDepth: nat) returns (r: Outcome<seq<Block>>)
      requires AllChainsEnd(pages)
      modifies this
      ensures var e := Expand(pages, id, depth, maxDepth, old(activePath));
              r == e.outcome && calls == old(calls) + e.calls && activePath == e.path
      ensures depth > maxDepth ==> r == Ok([]) && calls == old(calls)
      decreases Rank(depth, maxDepth), 1
    {
      if depth > maxDepth {
        return Ok([]);
      }
      assert PaginationEnds(pages, id);
      var listed := FetchChildrenPaginated(id);
      if listed.Missing? {
        return Missing(listed.key);
      }
      var children := listed.value;
      ghost var made := Listing(pages, id).calls;
      PrependNothing(ExpandKids(pages, listed.value, depth, maxDepth, activePath).outcome);
      assert listed.value[0..] == listed.value;
      var i := 0;
      while i < |children|
        invariant 0 <= i <= |children| == |listed.value|
        invariant children[i..] == listed.value[i..]
        invariant calls == old(calls) + made
        invariant Expand(pages, id, depth, maxDepth, old(activePath))
               == Then(children[..i], made, ExpandKids(pages, listed.value[i..], depth, maxDepth, activePath))
      {
        var child := children[i];
        assert child == listed.value[i];
        ghost var before, madeBefore, done := activePath, made, children[..i];
        var expanded := FetchChild(child, depth, maxDepth);
        made := made + ExpandChild(pages, child, depth, maxDepth, before).calls;
        if expanded.Missing? {
          KidsStepFails(pages, listed.value, i, depth, maxDepth, before);
          return Missing(expanded.key);
        }
        children := children[i := expanded.value];
        assert children[..i + 1] == done + [expanded.value];
        KidsStep(pages, listed.value, i, depth, maxDepth, before, done, madeBefore);
        i := i + 1;
      }
      assert children[..i] == children && listed.value[i..] == [];
      assert children + [] == children && made + [] == made;
      return Ok(children);
    }

    /** One iteration of the loop over the children in
        `fetch_block_children_recursive`: the child with its `children`
        field set as that loop sets it. */
    method FetchChild(child: Block, depth: nat, maxDepth: nat) returns (r: Outcome<Block>)
      requires AllChainsEnd(pages) && depth <= maxDepth
      modifies this
      ensures var e := ExpandChild(pages, child, depth, maxDepth, old(activePath));
              r == e.outcome && calls == old(calls) + e.calls && activePath == e.path
      decreases Rank(depth, maxDepth), 0
    {
      if !child.hasChildren {
        return Ok(child);
      }
      if child.id.None? || child.id.value == "" || child.id.value in activePath {
        return Ok(child.(children := [], childrenAttached := true));
      }
      var cid := child.id.value;
      activePath := activePath + {cid};
      var sub := FetchChildrenRecursive(cid, depth + 1, maxDepth);
      if sub.Missing? {
        return Missing(sub.key);
      }
      activePath := activePath - {cid};
      return Ok(child.(children := sub.value, childrenAttached := true));
    }

    /** `fetch_blocks(page_id)`: a fresh active path, depth 0, the default
        maximum depth. */
    method FetchBlocks(pageId: string) returns (r: Outcome<seq<Block>>)
      requires AllChainsEnd(pages)
      modifies this
      ensures var e := Expand(pages, pageId, 0, MaxDepth, {});
              r == e.outcome && calls == old(calls) + e.calls && activePath == e.path
    {
      activePath := {};
      r := FetchChildrenRecursive(pageId, 0, MaxDepth);
    }
  }

  /** A finished prefix of a listing followed by the rest of the chain. */
  function ThenListed(results: seq<Block>, made: seq<Key>, rest: Listed): Listed
  {
    Listed(Prepend(results, rest.outcome), made + rest.calls)
  }

  /** The last round of the pagination loop: a request that is not served
      ends the listing with that failure, and a page without `has_more`
      ends it with everything collected so far plus that page's results. */
  lemma ChainStops(pages: PageSource, id: string, cursor: Option<string>, fuel: nat, results: seq<Block>, made: seq<Key>)
    requires Chain(pages, id, cursor, fuel).Some?
    requires (id, cursor) !in pages || !pages[(id, cursor)].hasMore
    ensures ThenListed(results, made, Chain(pages, id, cursor, fuel).value)
         == if (id, cursor) !in pages then Listed(Missing((id, cursor)), made + [(id, cursor)])
            else Listed(Ok(results + pages[(id, cursor)].results), made + [(id, cursor)])
  {
  }

  /** One round of the pagination loop: a page with `has_more` moves its
      results and its request from the rest of the chain to what has
      been collected, and the chain continues from its cursor. */
  lemma ChainAdvance(pages: PageSource, id: string, cursor: Option<string>, fuel: nat, results: seq<Block>, made: seq<Key>)
    requires Chain(pages, id, cursor, fuel).Some?
    requires (id, cursor) in pages && pages[(id, cursor)].hasMore
    ensures fuel > 0
    ensures Chain(pages, id, RequestCursor(pages[(id, cursor)].nextCursor), fuel - 1).Some?
    ensures ThenListed(results, made, Chain(pages, id, cursor, fuel).value)
         == ThenListed(results + pages[(id, cursor)].results, made + [(id, cursor)],
                       Chain(pages, id, RequestCursor(pages[(id, cursor)].nextCursor), fuel - 1).value)
  {
    var page := pages[(id, cursor)];
    var tail := Chain(pages, id, RequestCursor(page.nextCursor), fuel - 1).value;
    assert Chain(pages, id, cursor, fuel).value == Listed(Prepend(page.results, tail.outcome), [(id, cursor)] + tail.calls);
    PrependTwice(results, page.results, tail.outcome);
    assert made + ([(id, cursor)] + tail.calls) == made + [(id, cursor)] + tail.calls;
  }
}
