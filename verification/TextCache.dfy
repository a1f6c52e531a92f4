// The text-layer cache of an open document (crates/key-desktop-host/src/backend.rs).
module TextCache {
  import opened Collections
  import opened Options

  type Layer = string

  /** Pages in the order of their last use. */
  function ByLastUse(uses: seq<nat>): seq<nat> {
    if uses == [] then [] else Without(ByLastUse(uses[..|uses| - 1]), uses[|uses| - 1]) + [uses[|uses| - 1]]
  }

  function LastOf(pages: seq<nat>, n: nat): seq<nat> { if |pages| <= n then pages else pages[|pages| - n..] }

  lemma {:induction false} ByLastUseIsDistinct(uses: seq<nat>)
    ensures NoDuplicates(ByLastUse(uses)) && forall page :: page in ByLastUse(uses) <==> page in uses
  {
    if uses != [] {
      var front, last := uses[..|uses| - 1], uses[|uses| - 1];
      ByLastUseIsDistinct(front);
      WithoutNoDuplicates(ByLastUse(front), last);
      assert uses == front + [last];
    }
  }

  /** The order after using a page: it moves to the back, and the front is evicted beyond the limit. */
  function AfterUse(order: seq<nat>, page: nat, limit: nat): seq<nat> {
    LastOf(Without(order, page) + [page], limit)
  }

  lemma Popped(pages: set<nat>, order: seq<nat>)
    requires order != [] && NoDuplicates(order) && pages == set p | p in order
    ensures NoDuplicates(order[1..]) && pages - {order[0]} == (set p | p in order[1..]) && |pages| == |order|
    ensures |pages - {order[0]}| == |order| - 1 && order[0] !in order[1..]
  {
    var rest := order[1..];
    assert order == [order[0]] + rest;
    assert pages - {order[0]} == set p | p in rest;
    OrderSize(pages, order);
    OrderSize(pages - {order[0]}, rest);
  }

  function Order(uses: seq<nat>, limit: nat): seq<nat> {
    if uses == [] then [] else AfterUse(Order(uses[..|uses| - 1], limit), uses[|uses| - 1], limit)
  }

  /** Using a page of the last few, or a new one, keeps the last few. */
  lemma LastFewMove(order: seq<nat>, page: nat, limit: nat)
    requires limit > 0 && NoDuplicates(order)
    ensures AfterUse(LastOf(order, limit), page, limit) == LastOf(Without(order, page) + [page], limit)
  {
    hide Without, NoDuplicates;
    if |order| > limit {
      hide LastOf;
      var head, kept := order[..|order| - limit], order[|order| - limit..];
      assert order == head + kept;
      var short := Without(kept, page) + [page];
      KeptIsLong(head, kept, page);
      LastOfTail(head, kept, limit);
      LastOfTail(Without(head, page), short, limit);
      assert Without(order, page) + [page] == Without(head, page) + short by { WithoutConcat(head, kept, page); }
    }
  }

  lemma KeptIsLong(head: seq<nat>, kept: seq<nat>, page: nat)
    requires NoDuplicates(head + kept)
    ensures |kept| <= |Without(kept, page)| + 1
  {
    assert NoDuplicates(kept) by {
      forall i, j | 0 <= i < j < |kept|
        ensures kept[i] != kept[j]
      {
        assert (head + kept)[|head| + i] != (head + kept)[|head| + j];
      }
    }
    WithoutNoDuplicates(kept, page);
  }

  lemma MovedPages(order: seq<nat>, page: nat)
    ensures (set p | p in Without(order, page) + [page]) == (set p | p in order) + {page}
  {
    hide Without;
  }

  lemma Grown(pages: set<nat>, order: seq<nat>, page: nat)
    requires NoDuplicates(order) && page !in pages && pages == set p | p in order
    ensures var next := Without(order, page) + [page];
      && NoDuplicates(next) && |next| == |order| + 1
      && pages + {page} == (set p | p in next) && |pages + {page}| == |next|
  {
    hide NoDuplicates, Without;
    WithoutNoDuplicates(order, page);
    MovedPages(order, page);
    OrderSize(pages + {page}, Without(order, page) + [page]);
  }

  lemma LastOfTail(head: seq<nat>, tail: seq<nat>, n: nat)
    requires n <= |tail|
    ensures LastOf(head + tail, n) == LastOf(tail, n)
    ensures |tail| == n ==> LastOf(tail, n) == tail
  {
  }

  /** The cache order is exactly the most recently used pages, up to the limit, in order of last use. */
  lemma {:induction false} OrderIsMostRecent(uses: seq<nat>, limit: nat)
    requires limit > 0
    ensures Order(uses, limit) == LastOf(ByLastUse(uses), limit)
  {
    if uses != [] {
      var front, last := uses[..|uses| - 1], uses[|uses| - 1];
      OrderIsMostRecent(front, limit);
      ByLastUseIsDistinct(front);
      LastFewMove(ByLastUse(front), last, limit);
    }
  }

  /** A document that may have been closed (hibernated); the map is what extraction gives for each page. */
  class NativeDocument {
    var document: Option<map<nat, Layer>>
    var textCache: map<nat, Layer>
    var textCacheOrder: seq<nat>
    const textCacheLimit: nat

    constructor (text: map<nat, Layer>, limit: nat)
      requires limit > 0
      ensures Valid() && document == Some(text) && textCacheOrder == [] && textCacheLimit == limit
    {
      document, textCache, textCacheOrder, textCacheLimit := Some(text), map[], [], limit;
    }

    ghost predicate Valid()
      reads this
    {
      && 0 < textCacheLimit && |textCacheOrder| <= textCacheLimit && NoDuplicates(textCacheOrder)
      && textCache.Keys == set page | page in textCacheOrder
    }

    /** The layer of a page; a miss extracts it and may evict the least recently used page. */
    method EnsureText(page: nat) returns (layer: Option<Layer>)
      requires Valid()
      modifies this`textCache, this`textCacheOrder
      ensures Valid()
      ensures layer.None? <==> page !in old(textCache) && (document.None? || page !in document.value)
      ensures layer.None? ==> textCache == old(textCache) && textCacheOrder == old(textCacheOrder)
      ensures layer.Some? ==> textCacheOrder == AfterUse(old(textCacheOrder), page, textCacheLimit)
      ensures layer.Some? ==> page in textCache && textCache[page] == layer.value
      ensures layer.Some? ==>
        layer.value == if page in old(textCache) then old(textCache)[page] else document.value[page]
      ensures forall p :: p in textCache && p != page ==> p in old(textCache) && textCache[p] == old(textCache)[p]
    {
      if page !in textCache {
        if document.None? || page !in document.value {
          return None;
        }
        Insert(page, document.value[page]);
      } else {
        Touch(page);
      }
      layer := Some(textCache[page]);
    }

    /** A cached page becomes the most recently used one. */
    method Touch(page: nat)
      requires Valid() && page in textCache
      modifies this`textCacheOrder
      ensures Valid() && textCacheOrder == AfterUse(old(textCacheOrder), page, textCacheLimit)
    {
      hide NoDuplicates, Without;
      WithoutNoDuplicates(textCacheOrder, page);
      MovedPages(textCacheOrder, page);
      textCacheOrder := Without(textCacheOrder, page) + [page];
    }

    method Insert(page: nat, layer: Layer)
      requires Valid() && page !in textCache
      modifies this`textCache, this`textCacheOrder
      ensures Valid() && textCacheOrder == AfterUse(old(textCacheOrder), page, textCacheLimit)
      ensures page in textCache && textCache[page] == layer
      ensures forall p :: p in textCache && p != page ==> p in old(textCache) && textCache[p] == old(textCache)[p]
    {
      hide NoDuplicates, Without;
      Grown(textCache.Keys, textCacheOrder, page);
      textCache := textCache[page := layer];
      textCacheOrder := Without(textCacheOrder, page) + [page];
      assert |textCache| == |textCache.Keys|;
      if |textCache| > textCacheLimit {
        Evict(page);
      }
    }

    /** Pops the front of the order until the cache fits; the page in use is never popped. */
    method Evict(page: nat)
      requires 0 < textCacheLimit && |textCacheOrder| == textCacheLimit + 1 && NoDuplicates(textCacheOrder)
      requires textCacheOrder[textCacheLimit] == page && textCache.Keys == (set p | p in textCacheOrder)
      modifies this`textCache, this`textCacheOrder
      ensures Valid() && textCacheOrder == old(textCacheOrder)[1..]
      ensures forall p :: p in textCache ==> p in old(textCache) && textCache[p] == old(textCache)[p]
    {
      hide NoDuplicates;
      OrderSize(textCache.Keys, textCacheOrder);
      assert |textCache| == |textCache.Keys|;
      Popped(textCache.Keys, textCacheOrder);
      while |textCache| > textCacheLimit
        invariant |textCache| == |textCacheOrder| && NoDuplicates(textCacheOrder)
        invariant textCache.Keys == set p | p in textCacheOrder
        invariant textCacheOrder == old(textCacheOrder) || textCacheOrder == old(textCacheOrder)[1..]
        invariant forall p :: p in textCache ==> p in old(textCache) && textCache[p] == old(textCache)[p]
        decreases |textCacheOrder|
      {
        var evicted := textCacheOrder[0];
        Popped(textCache.Keys, textCacheOrder);
        textCacheOrder := textCacheOrder[1..];
        if evicted != page {
          textCache := textCache - {evicted};
        }
        assert |textCache| == |textCache.Keys|;
      }
    }

    method Hibernate()
      requires Valid()
      modifies this
      ensures Valid() && document == None && textCache == map[] && textCacheOrder == []
    {
      document, textCache, textCacheOrder := None, map[], [];
    }
  }
}
