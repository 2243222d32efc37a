/**
 * The shape shared by `fetch_friends`, `fetch_feed` and `fetch_feed_stream`:
 * yield one page's entries, then locate the next-page link and continue from
 * it, stopping at the first page that has none. A chain of pages is the
 * sequence of documents the successive fetches return; the chain running out
 * while a next link is still there stands for a fetch that raised.
 */
module Pagination {
  import opened Wrappers
  import Scraper

  /** A text node of a fetched page, with the `href` of its grandparent element. */
  datatype TextNode = TextNode(text: string, grandparentHref: Option<string>)

  /** `soup.find(string=s)`: the first text node whose text is exactly `s`. */
  function FindText(texts: seq<TextNode>, s: string): (r: Option<TextNode>)
    ensures r.None? <==> forall k :: 0 <= k < |texts| ==> texts[k].text != s
    ensures r.Some? ==> exists k :: 0 <= k < |texts| && texts[k] == r.value && r.value.text == s &&
                                    forall j :: 0 <= j < k ==> texts[j].text != s
  {
    if texts == [] then None
    else if texts[0].text == s then Some(texts[0])
    else
      var r := FindText(texts[1..], s);
      assert forall k :: 1 <= k < |texts| ==> texts[k] == texts[1..][k - 1];
      r
  }

  /** The outcome of looking for a next-page link. */
  datatype NextLink =
    | NoNext               // the marker text is absent: the traversal ends normally
    | NextUrl(url: string) // the URL to fetch next
    | Broken               // the page raised: an extractor failed, or the marker has no link

  /**
   * `get_next_friends_url` / `get_next_posts_url`: find the marker text, walk to
   * its grandparent and pass that element's `href` through `create_url`.
   * `create_url(None)` raises, which is the `Broken` case.
   */
  function LocateNext(texts: seq<TextNode>, marker: string): (r: NextLink)
    ensures r == NoNext <==> forall k :: 0 <= k < |texts| ==> texts[k].text != marker
    ensures r.NextUrl? <==> exists h :: FindText(texts, marker) == Some(TextNode(marker, Some(h))) &&
                                        r == NextUrl(Scraper.CreateUrl(h))
  {
    match FindText(texts, marker)
    case None => NoNext
    case Some(node) =>
      match node.grandparentHref
      case None => Broken
      case Some(h) => NextUrl(Scraper.CreateUrl(h))
  }

  /** What one page of a traversal contributes: the entries it yields, then its next link. */
  datatype PageYield<E> = PageYield(items: seq<E>, next: NextLink)

  /**
   * What a consumer of a traversal (or of one page) receives: the entries yielded,
   * and whether the generator then returned normally (`complete`) or raised.
   */
  datatype Walk<E> = Walk(items: seq<E>, complete: bool)

  /**
   * The recursive generator: the first page's entries, then, if it links on,
   * everything the recursive call on the rest of the chain yields.
   */
  function Chain<E>(pages: seq<PageYield<E>>): (w: Walk<E>)
    ensures pages == [] ==> w == Walk([], false)
    ensures pages != [] ==> pages[0].items <= w.items
    ensures w.complete ==> exists k :: 0 <= k < |pages| && pages[k].next == NoNext
    decreases |pages|
  {
    if pages == [] then Walk([], false)
    else
      var p := pages[0];
      match p.next
      case NoNext => Walk(p.items, true)
      case Broken => Walk(p.items, false)
      case NextUrl(_) =>
        var rest := Chain(pages[1..]);
        assert rest.complete ==> exists k :: 1 <= k < |pages| && pages[k].next == NoNext by {
          if rest.complete {
            var k :| 0 <= k < |pages[1..]| && pages[1..][k].next == NoNext;
            assert pages[k + 1] == pages[1..][k];
          }
        }
        Walk(p.items + rest.items, rest.complete)
  }

  /**
   * A generator loop `for x in xs: yield f(x)` where `f` may raise: the results
   * in order, up to the first input on which `f` fails, which ends the generator.
   */
  function YieldEach<S, E>(f: S -> Result<E>, xs: seq<S>): (w: Walk<E>)
    ensures |w.items| <= |xs|
    ensures forall k :: 0 <= k < |w.items| ==> f(xs[k]) == Ok(w.items[k])
    ensures w.complete <==> |w.items| == |xs|
    ensures !w.complete ==> f(xs[|w.items|]).Err?
  {
    if xs == [] then Walk([], true)
    else
      match f(xs[0])
      case Err(_) => Walk([], false)
      case Ok(e) =>
        var rest := YieldEach(f, xs[1..]);
        assert forall k :: 1 <= k < |xs| ==> xs[k] == xs[1..][k - 1];
        Walk([e] + rest.items, rest.complete)
  }

  // ------------------------------------------------- reference definitions

  /** The index of the first page that does not link on, or `|pages|` if every page does. */
  function StopIndex<E>(pages: seq<PageYield<E>>): (n: nat)
    ensures n <= |pages|
    ensures forall k :: 0 <= k < n ==> pages[k].next.NextUrl?
    ensures n < |pages| ==> !pages[n].next.NextUrl?
  {
    if pages == [] || !pages[0].next.NextUrl? then 0
    else
      var n := 1 + StopIndex(pages[1..]);
      assert forall k :: 1 <= k < |pages| ==> pages[k] == pages[1..][k - 1];
      n
  }

  /** The number of pages whose entries a traversal yields. */
  function Visited<E>(pages: seq<PageYield<E>>): nat
  {
    if StopIndex(pages) < |pages| then StopIndex(pages) + 1 else |pages|
  }

  function ItemsOf<E>(pages: seq<PageYield<E>>): seq<seq<E>>
  {
    seq(|pages|, i requires 0 <= i < |pages| => pages[i].items)
  }

  /** The concatenation of a sequence of sequences, in order. */
  function Flatten<E>(ss: seq<seq<E>>): seq<E>
  {
    if ss == [] then [] else ss[0] + Flatten(ss[1..])
  }

  /** Flattening distributes over concatenation. */
  lemma {:induction false} FlattenAppend<E>(a: seq<seq<E>>, b: seq<seq<E>>)
    ensures Flatten(a + b) == Flatten(a) + Flatten(b)
  {
    if a != [] {
      assert (a + b)[0] == a[0];
      assert (a + b)[1..] == a[1..] + b;
      FlattenAppend(a[1..], b);
    } else {
      assert a + b == b;
    }
  }

  /** The sum of the lengths. */
  function TotalLength<E>(ss: seq<seq<E>>): nat
  {
    if ss == [] then 0 else |ss[0]| + TotalLength(ss[1..])
  }

  lemma {:induction false} FlattenLength<E>(ss: seq<seq<E>>)
    ensures |Flatten(ss)| == TotalLength(ss)
  {
    if ss != [] {
      FlattenLength(ss[1..]);
    }
  }

  // ------------------------------------------------- properties of Chain

  /**
   * A traversal yields the entries of the visited pages, concatenated in page
   * order: every page up to and including the first one that does not link on.
   * It returns normally exactly when that page exists and lacks the marker;
   * otherwise (a broken page, or the chain running out) it raises.
   */
  lemma {:induction false} ChainSpec<E>(pages: seq<PageYield<E>>)
    ensures Chain(pages).items == Flatten(ItemsOf(pages[..Visited(pages)]))
    ensures Chain(pages).complete <==>
      StopIndex(pages) < |pages| && pages[StopIndex(pages)].next == NoNext
  {
    if pages != [] {
      var p := pages[0];
      var v := Visited(pages);
      assert ItemsOf(pages[..v])[0] == p.items;
      if p.next.NextUrl? {
        ChainSpec(pages[1..]);
        assert StopIndex(pages) == 1 + StopIndex(pages[1..]);
        assert v == 1 + Visited(pages[1..]);
        assert ItemsOf(pages[..v])[1..] == ItemsOf(pages[1..][..v - 1]);
      } else {
        assert v == 1;
        assert ItemsOf(pages[..v])[1..] == [];
      }
    }
  }

  /** The number of entries yielded is the sum of the visited pages' entry counts. */
  lemma ChainLength<E>(pages: seq<PageYield<E>>)
    ensures |Chain(pages).items| == TotalLength(ItemsOf(pages[..Visited(pages)]))
  {
    ChainSpec(pages);
    FlattenLength(ItemsOf(pages[..Visited(pages)]));
  }

  /** A single page without a next link: its `N` entries, then a normal return. */
  lemma ChainSinglePage<E>(p: PageYield<E>, rest: seq<PageYield<E>>)
    requires p.next == NoNext
    ensures Chain([p] + rest) == Walk(p.items, true)
  {
  }

  /** The traversal never fetches past a page without a next link: later pages do not matter. */
  lemma {:induction false} ChainPrefix<E>(pages: seq<PageYield<E>>, more: seq<PageYield<E>>)
    requires StopIndex(pages) < |pages|
    ensures Chain(pages + more) == Chain(pages)
  {
    assert (pages + more)[0] == pages[0];
    if pages[0].next.NextUrl? {
      assert StopIndex(pages) == 1 + StopIndex(pages[1..]);
      assert (pages + more)[1..] == pages[1..] + more;
      ChainPrefix(pages[1..], more);
    }
  }

  /**
   * `K` linked pages of `M` entries each, the last without a next link: the
   * traversal yields `K * M` entries and returns normally.
   */
  lemma {:induction false} ChainUniform<E>(pages: seq<PageYield<E>>, m: nat)
    requires pages != []
    requires forall k :: 0 <= k < |pages| ==> |pages[k].items| == m
    requires forall k :: 0 <= k < |pages| - 1 ==> pages[k].next.NextUrl?
    requires pages[|pages| - 1].next == NoNext
    ensures |Chain(pages).items| == |pages| * m
    ensures Chain(pages).complete
  {
    if |pages| > 1 {
      assert forall k :: 0 <= k < |pages| - 1 ==> pages[1..][k] == pages[k + 1];
      ChainUniform(pages[1..], m);
    }
  }
}
