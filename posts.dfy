/**
 * `facebook_posts.py`: the feed URL, the all-or-nothing extraction of one post,
 * the comment-count rule, and the two recursive feed traversals.
 */
module Posts {
  import opened Wrappers
  import opened Text
  import Config
  import opened Scraper
  import Utils
  import opened Pagination

  /** `create_posts_uri(page_id)`: root, slash, page id, then `/?v=timeline`. */
  function CreatePostsUri(pageId: string): (r: string)
    ensures var n := |Config.PostsHomeUri| + 1;
      |r| == n + |pageId| + 12 && r[..n] == Config.PostsHomeUri + "/" &&
      r[n..n + |pageId|] == pageId && r[n + |pageId|..] == "/?v=timeline"
  {
    Config.PostsHomeUri + "/" + pageId + "/?v=timeline"
  }

  /** Distinct pages get distinct feed URLs: the page id can be read back from the URL. */
  lemma CreatePostsUriInjective(p: string, q: string)
    requires CreatePostsUri(p) == CreatePostsUri(q)
    ensures p == q
  {
    var n := |Config.PostsHomeUri| + 1;
    assert |p| == |q|;
    assert CreatePostsUri(p)[n..n + |p|] == p;
    assert CreatePostsUri(q)[n..n + |q|] == q;
  }

  // ------------------------------------------------- one post entry

  /**
   * A post entry as the extractors see it, each field `None` where the lookup
   * the extractor makes raises: the publish time from its `data-ft` JSON, the
   * text of its paragraph, the text of the link in its footer (likes), the text
   * of the comments section of the footer's statistics, and the element holding
   * the permalink text together with the `href` of its parent (which may be
   * missing without raising).
   */
  datatype PostSoup = PostSoup(
    timestamp: Option<int>,
    content: Option<string>,
    likesText: Option<string>,
    commentsText: Option<string>,
    permalink: Option<Option<string>>)

  datatype Post = Post(timestamp: int, content: string, likes: int, comments: nat, url: Option<string>)

  /** `get_number_of_likes`: `int` of the footer link's text. */
  function GetNumberOfLikes(post: PostSoup): (r: Option<int>)
    ensures r.Some? <==> post.likesText.Some? && ParseInt(post.likesText.value).Some?
    ensures r.Some? ==> r == ParseInt(post.likesText.value)
  {
    match post.likesText
    case None => None
    case Some(t) => ParseInt(t)
  }

  /**
   * The rule of `get_number_of_comments` over the words of the comments text:
   * the first word if it is numeric, else the last word if it is numeric, else
   * 0. No words at all is the IndexError of `[0]`.
   */
  function CommentCount(words: seq<string>): (r: Option<nat>)
    ensures r.None? <==> words == []
    ensures r.Some? && r.value != 0 ==>
      (IsNumeric(words[0]) && r.value == DigitsValue(words[0])) ||
      (!IsNumeric(words[0]) && IsNumeric(words[|words| - 1]) && r.value == DigitsValue(words[|words| - 1]))
  {
    if words == [] then None
    else if IsNumeric(words[0]) then Some(DigitsValue(words[0]))
    else if IsNumeric(words[|words| - 1]) then Some(DigitsValue(words[|words| - 1]))
    else Some(0)
  }

  /** `get_number_of_comments`. */
  function GetNumberOfComments(post: PostSoup): (r: Option<nat>)
    ensures r.None? <==> (post.commentsText.None? ||
      forall k :: 0 <= k < |post.commentsText.value| ==> IsSpace(post.commentsText.value[k]))
    ensures r.Some? ==> var ws := Words(post.commentsText.value);
      r.value == 0 || (IsNumeric(ws[0]) && r.value == DigitsValue(ws[0])) ||
      (IsNumeric(ws[|ws| - 1]) && r.value == DigitsValue(ws[|ws| - 1]))
  {
    match post.commentsText
    case None => None
    case Some(t) => CommentCount(Words(t))
  }

  /** A numeric first word is the count, whatever the last word is ("3 comments", "3 of 5"). */
  lemma CommentsFirstWins(words: seq<string>)
    requires words != [] && IsNumeric(words[0])
    ensures CommentCount(words) == Some(DigitsValue(words[0]))
  {
  }

  /** Only the last word numeric ("Comments 7"): the count is the last word. */
  lemma CommentsLastWord(words: seq<string>)
    requires words != [] && !IsNumeric(words[0]) && IsNumeric(words[|words| - 1])
    ensures CommentCount(words) == Some(DigitsValue(words[|words| - 1]))
  {
  }

  /** Neither end numeric ("Comment"): the count is 0. */
  lemma CommentsNone(words: seq<string>)
    requires words != [] && !IsNumeric(words[0]) && !IsNumeric(words[|words| - 1])
    ensures CommentCount(words) == Some(0)
  {
  }

  /**
   * Whatever the text, the count is either absent (blank text) or one of: the
   * value of the first word, the value of the last word, or 0; and a blank
   * comments text is exactly the case with no count.
   */
  lemma CommentsFromText(t: string)
    ensures GetNumberOfComments(PostSoup(None, None, None, Some(t), None)).None? <==>
            forall k :: 0 <= k < |t| ==> IsSpace(t[k])
    ensures var ws := Words(t); var c := CommentCount(ws);
      c.Some? ==> c.value == 0 || (IsNumeric(ws[0]) && c.value == DigitsValue(ws[0])) ||
                  (IsNumeric(ws[|ws| - 1]) && c.value == DigitsValue(ws[|ws| - 1]))
  {
  }

  /** A footer link reading the decimal rendering of `n` gives `n` likes. */
  lemma LikesDecimal(post: PostSoup, n: nat)
    requires post.likesText == Some(Decimal(n))
    ensures GetNumberOfLikes(post) == Some(n)
  {
    ParseIntDecimal(n);
  }

  /** A decimal string has no whitespace. */
  lemma DecimalNoSpace(n: nat)
    ensures Decimal(n) != [] && NoSpace(Decimal(n))
  {
    var d := Decimal(n);
    assert forall k :: 0 <= k < |d| ==> IsDigit(d[k]);
  }

  /** "`n` comments", or "`n` of `m`": a leading count is read as the count. */
  lemma CommentsLeadingCount(n: nat, word: string)
    requires word != [] && NoSpace(word)
    ensures GetNumberOfComments(PostSoup(None, None, None, Some(Decimal(n) + " " + word), None)) == Some(n)
  {
    var d := Decimal(n);
    DecimalNoSpace(n);
    assert d + " " + word == d + [' '] + word;
    WordsCons(d, ' ', word);
    WordsSingle(word);
    DigitsValueDecimal(n);
  }

  /** "Comments `n`": with a non-numeric first word, a trailing count is read as the count. */
  lemma CommentsTrailingCount(word: string, n: nat)
    requires word != [] && NoSpace(word) && !IsNumeric(word)
    ensures GetNumberOfComments(PostSoup(None, None, None, Some(word + " " + Decimal(n)), None)) == Some(n)
  {
    var d := Decimal(n);
    DecimalNoSpace(n);
    assert word + " " + d == word + [' '] + d;
    WordsCons(word, ' ', d);
    WordsSingle(d);
    DigitsValueDecimal(n);
  }

  /** `get_url`: the permalink's `href`, which may be `None`. */
  function GetUrl(post: PostSoup): Option<Option<string>>
  {
    post.permalink
  }

  /**
   * `create_post_from_soup`: a `Post` when all five extractors succeed, and
   * `None` (the bare `except`) as soon as any of them raises; never a partial post.
   */
  function CreatePostFromSoup(post: PostSoup): (r: Option<Post>)
    ensures r.Some? <==>
      post.timestamp.Some? && post.content.Some? && GetNumberOfLikes(post).Some? &&
      GetNumberOfComments(post).Some? && GetUrl(post).Some?
    ensures r.Some? ==>
      r.value.timestamp == post.timestamp.value && r.value.content == post.content.value &&
      r.value.likes == GetNumberOfLikes(post).value && r.value.comments == GetNumberOfComments(post).value &&
      r.value.url == GetUrl(post).value
  {
    match (post.timestamp, post.content, GetNumberOfLikes(post), GetNumberOfComments(post), GetUrl(post))
    case (Some(ts), Some(c), Some(l), Some(n), Some(u)) => Some(Post(ts, c, l, n, u))
    case _ => None
  }

  /** A post whose comments text is blank is dropped, as the IndexError it raises is caught. */
  lemma BlankCommentsDropPost(post: PostSoup)
    requires post.commentsText.Some? && forall k :: 0 <= k < |post.commentsText.value| ==> IsSpace(post.commentsText.value[k])
    ensures CreatePostFromSoup(post).None?
  {
  }

  /** The list comprehension `[create_post_from_soup(p) for p in posts_soups]`. */
  function ExtractAll(soups: seq<PostSoup>): (r: seq<Option<Post>>)
    ensures |r| == |soups| && forall k :: 0 <= k < |soups| ==> r[k] == CreatePostFromSoup(soups[k])
  {
    seq(|soups|, i requires 0 <= i < |soups| => CreatePostFromSoup(soups[i]))
  }

  // ------------------------------------------------- pages

  /** The first page of a feed: the children of the feed block's first element (`None`: no feed block). */
  datatype FeedDoc = FeedDoc(feed: Option<seq<PostSoup>>, texts: seq<TextNode>)

  /** A later page of a feed: its `table` elements and its text nodes. */
  datatype StreamDoc = StreamDoc(tables: seq<Element<PostSoup>>, texts: seq<TextNode>)

  /** `get_next_posts_url`. */
  function GetNextPostsUrl(texts: seq<TextNode>): (r: NextLink)
    ensures r == NoNext <==> forall k :: 0 <= k < |texts| ==> texts[k].text != Config.NextFeedText
    ensures r.NextUrl? <==> exists h :: FindText(texts, Config.NextFeedText) == Some(TextNode(Config.NextFeedText, Some(h))) &&
                                        r == NextUrl(Scraper.CreateUrl(h))
  {
    LocateNext(texts, Config.NextFeedText)
  }

  /**
   * The posts container of a later page: `take_nth(5, iterate(get_first_child,
   * tables[1]))`, which is the second table's element five levels down along
   * first children. `None` when there is no second table (IndexError) or when a
   * first child is missing on the way down (StopIteration).
   */
  function StreamContainer(tables: seq<Element<PostSoup>>): (r: Option<Element<PostSoup>>)
    ensures r == if |tables| < 2 then None else FirstDescendant(tables[1], 5)
  {
    if |tables| < 2 then None
    else
      var nth: Option<Option<Element<PostSoup>>> :=
        Utils.TakeNth(5, Utils.Iterate(FirstChildOf<PostSoup>, Some(tables[1]), 6));
      Utils.TakeNthIterate(FirstChildOf<PostSoup>, Some(tables[1]), 5, 6);
      ApplyFirstChild(tables[1], 5);
      if nth.Some? then nth.value else None
  }

  function ChildSoups(e: Element<PostSoup>): (r: seq<PostSoup>)
    ensures |r| == |e.children| && forall k :: 0 <= k < |r| ==> r[k] == e.children[k].data
  {
    seq(|e.children|, i requires 0 <= i < |e.children| => e.children[i].data)
  }

  /** One page of `fetch_feed`: its extracted posts, then its next link. */
  function FeedPage(doc: FeedDoc): PageYield<Option<Post>>
  {
    match doc.feed
    case None => PageYield([], Broken)
    case Some(soups) => PageYield(ExtractAll(soups), GetNextPostsUrl(doc.texts))
  }

  /** One page of `fetch_feed_stream`: its extracted posts, then its next link. */
  function StreamPage(doc: StreamDoc): PageYield<Option<Post>>
  {
    match StreamContainer(doc.tables)
    case None => PageYield([], Broken)
    case Some(c) => PageYield(ExtractAll(ChildSoups(c)), GetNextPostsUrl(doc.texts))
  }

  function StreamPages(docs: seq<StreamDoc>): (ps: seq<PageYield<Option<Post>>>)
    ensures |ps| == |docs| && forall k :: 0 <= k < |docs| ==> ps[k] == StreamPage(docs[k])
  {
    seq(|docs|, i requires 0 <= i < |docs| => StreamPage(docs[i]))
  }

  // ------------------------------------------------- traversals

  /** `fetch_feed_stream` over the chain of documents its successive fetches return. */
  function FetchFeedStream(docs: seq<StreamDoc>): (w: Walk<Option<Post>>)
    ensures docs == [] ==> w == Walk([], false)
    ensures docs != [] ==> StreamPage(docs[0]).items <= w.items
    ensures w.complete ==> exists k :: 0 <= k < |docs| && StreamPage(docs[k]).next == NoNext
  {
    Chain(StreamPages(docs))
  }

  /**
   * `fetch_feed`: the first page (`None`: its fetch raised), then
   * `fetch_feed_stream` from its next link over the later pages.
   */
  function FetchFeed(first: Option<FeedDoc>, rest: seq<StreamDoc>): (w: Walk<Option<Post>>)
    ensures first.None? ==> w == Walk([], false)
    ensures first.Some? ==> FeedPage(first.value).items <= w.items
    ensures first.Some? && FeedPage(first.value).next.NextUrl? ==> w.items == FeedPage(first.value).items + FetchFeedStream(rest).items
  {
    if first.None? then Walk([], false)
    else
      var pages := [FeedPage(first.value)] + StreamPages(rest);
      assert pages[1..] == StreamPages(rest);
      Chain(pages)
  }

  /**
   * `fetch_feed` yields the first page's posts and then, if the first page links
   * on, exactly what `fetch_feed_stream` yields from the next page; without the
   * marker it ends after the first page.
   */
  lemma FetchFeedStep(first: FeedDoc, rest: seq<StreamDoc>)
    ensures var p := FeedPage(first);
      (p.next.NextUrl? ==>
        FetchFeed(Some(first), rest) ==
        Walk(p.items + FetchFeedStream(rest).items, FetchFeedStream(rest).complete)) &&
      (p.next == NoNext ==> FetchFeed(Some(first), rest) == Walk(p.items, true)) &&
      (p.next == Broken ==> FetchFeed(Some(first), rest) == Walk(p.items, false))
  {
    assert ([FeedPage(first)] + StreamPages(rest))[1..] == StreamPages(rest);
  }

  /** `fetch_feed_stream` yields a page's posts, then recurses on the next link. */
  lemma FetchFeedStreamStep(docs: seq<StreamDoc>)
    requires docs != []
    ensures var p := StreamPage(docs[0]);
      (p.next.NextUrl? ==>
        FetchFeedStream(docs) ==
        Walk(p.items + FetchFeedStream(docs[1..]).items, FetchFeedStream(docs[1..]).complete)) &&
      (p.next == NoNext ==> FetchFeedStream(docs) == Walk(p.items, true))
  {
    assert StreamPages(docs)[1..] == StreamPages(docs[1..]);
  }

  /**
   * A feed traversal yields the extracted entries of every visited page in page
   * order, as many as those pages have entries in all, ending normally exactly
   * at a page without the next-feed marker.
   */
  lemma FetchFeedSpec(first: FeedDoc, rest: seq<StreamDoc>)
    ensures var ps := [FeedPage(first)] + StreamPages(rest);
      FetchFeed(Some(first), rest).items == Flatten(ItemsOf(ps[..Visited(ps)])) &&
      |FetchFeed(Some(first), rest).items| == TotalLength(ItemsOf(ps[..Visited(ps)])) &&
      (FetchFeed(Some(first), rest).complete <==> StopIndex(ps) < |ps| && ps[StopIndex(ps)].next == NoNext)
  {
    var ps := [FeedPage(first)] + StreamPages(rest);
    ChainSpec(ps);
    ChainLength(ps);
  }

  // ------------------------------------------------- as written: no await

  /**
   * The first page of `fetch_feed` as written. `fetch_html` is a coroutine
   * function and is called without `await`, so `soup` is a coroutine object;
   * `get_posts_as_soups` calls `find` on it, which raises AttributeError before
   * anything is yielded, whatever the server would have returned.
   * (`fetch_feed_stream` has the same defect.)
   */
  function FeedPageUnawaited(): (p: PageYield<Option<Post>>)
    ensures p.items == [] && p.next == Broken
  {
    PageYield([], Broken)
  }

  /** `fetch_feed` as written: it never yields a post and always raises. */
  function FetchFeedAsWritten(first: Option<FeedDoc>, rest: seq<StreamDoc>): (w: Walk<Option<Post>>)
    ensures w == Walk([], false)
  {
    Chain([FeedPageUnawaited()] + StreamPages(rest))
  }

  /**
   * A single-page feed with posts and no next marker: the awaited traversal
   * yields every post and ends normally, while the traversal as written yields
   * nothing and raises.
   */
  lemma UnawaitedFeedLosesPosts(soups: seq<PostSoup>)
    requires soups != []
    ensures var doc := FeedDoc(Some(soups), []);
      FetchFeed(Some(doc), []) == Walk(ExtractAll(soups), true) &&
      FetchFeedAsWritten(Some(doc), []) == Walk([], false) &&
      FetchFeed(Some(doc), []) != FetchFeedAsWritten(Some(doc), [])
  {
    var doc := FeedDoc(Some(soups), []);
    assert [FeedPage(doc)] + StreamPages([]) == [FeedPage(doc)];
    assert |ExtractAll(soups)| > 0;
  }

  /** A later page whose container is found and which lacks the marker ends the traversal. */
  lemma StreamPageWithoutMarker(doc: StreamDoc)
    requires StreamContainer(doc.tables).Some?
    requires forall k :: 0 <= k < |doc.texts| ==> doc.texts[k].text != Config.NextFeedText
    ensures StreamPage(doc) == PageYield(ExtractAll(ChildSoups(StreamContainer(doc.tables).value)), NoNext)
  {
  }
}
