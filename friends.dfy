/**
 * `facebook_friends.py`: the friend-list URL, the extractors of one friend
 * entry, and the recursive traversal of a paginated friend list.
 */
module Friends {
  import opened Wrappers
  import opened Text
  import Config
  import Scraper
  import opened Pagination

  /** `create_friends_url(user_id)`: root, slash, the user id, slash, the friends path. */
  function CreateFriendsUrl(userId: string): (r: string)
    ensures var n := |Config.HomeUri| + 1;
      |r| == n + |userId| + 1 + |Config.FriendsPath| && r[..n] == Config.HomeUri + "/" &&
      r[n..n + |userId|] == userId && r[n + |userId|..] == "/" + Config.FriendsPath
  {
    Config.HomeUri + "/" + userId + "/" + Config.FriendsPath
  }

  /** Distinct users get distinct friend-list URLs: the user id can be read back from the URL. */
  lemma CreateFriendsUrlInjective(u: string, v: string)
    requires CreateFriendsUrl(u) == CreateFriendsUrl(v)
    ensures u == v
  {
    var url := CreateFriendsUrl(u);
    var n := |Config.HomeUri| + 1;
    assert |u| == |v|;
    assert url[n..n + |u|] == u;
    assert CreateFriendsUrl(v)[n..n + |v|] == v;
  }

  // ------------------------------------------------- list slicing

  /** How Python clamps one bound of `s[start:stop]` for a sequence of length `n`. */
  function PyBound(i: int, n: nat): (b: nat)
    ensures b <= n
  {
    if i < 0 then (if i + n < 0 then 0 else i + n)
    else if i > n then n
    else i
  }

  /** Python's `s[start:stop]`, negative bounds counting from the end. */
  function PySlice<T>(s: seq<T>, start: int, stop: int): seq<T>
  {
    var lo, hi := PyBound(start, |s|), PyBound(stop, |s|);
    if lo < hi then s[lo..hi] else []
  }

  /**
   * `get_friends_as_soups`: `find_all("table")[2:-3]`, which drops the first two
   * and the last three tables and keeps the rest in order.
   */
  function GetFriendsAsSoups<T>(tables: seq<T>): (r: seq<T>)
    ensures |r| == if |tables| > 5 then |tables| - 5 else 0
    ensures forall k :: 0 <= k < |r| ==> r[k] == tables[k + 2]
  {
    PySlice(tables, 2, -3)
  }

  // ------------------------------------------------- one friend entry

  /**
   * A friend entry as the extractors see it: the `href` of its first link
   * (`None` when there is no link or no `href`; both make `get_id` raise),
   * its name, the `src` of its first image (outer `None`: no image, which makes
   * `get_profile_picture_url` raise; inner `None`: an image without `src`),
   * and the raw strings of its first `div` (`None` when it has no `div`).
   */
  datatype FriendSoup = FriendSoup(
    anchorHref: Option<string>,
    name: string,
    imageSrc: Option<Option<string>>,
    divStrings: Option<seq<string>>)

  datatype Friend = Friend(id: string, name: string, numCommonFriends: Option<int>, profilePictureUrl: Option<string>)

  /** `Friend.url`. */
  function FriendUrl(f: Friend): (r: string)
    ensures var n := |Config.HomeUri| + 1; |r| >= n && r[..n] == Config.HomeUri + "/"
    ensures (f.id != [] ==> f.id[0] != '/' && f.id[|f.id| - 1] != '/') ==> r == Config.HomeUri + "/" + f.id
  {
    var clean := f.id != [] ==> f.id[0] != '/' && f.id[|f.id| - 1] != '/';
    assert clean ==> Scraper.CreateUrl(f.id) == Config.HomeUri + "/" + f.id by {
      if clean { Scraper.CreateUrlVerbatim(f.id); }
    }
    Scraper.CreateUrl(f.id)
  }

  /**
   * `get_id`: a `/profile.php` link keeps its query up to the first `&`; any other
   * link is cut at the first `?`; either way `/` is stripped from both ends.
   */
  function GetId(soup: FriendSoup): (r: Result<string>)
    ensures r.Err? <==> soup.anchorHref.None?
    ensures r.Ok? ==> r.value != [] ==> r.value[0] != '/' && r.value[|r.value| - 1] != '/'
  {
    match soup.anchorHref
    case None => Err(AttributeError)
    case Some(url) =>
      if StartsWith(url, "/profile.php") then Ok(Strip(BeforeFirst(url, '&'), Scraper.Slash))
      else Ok(Strip(BeforeFirst(url, '?'), Scraper.Slash))
  }

  /**
   * The id is the part of the link before its separator, with the slashes at
   * both ends removed; a `/profile.php` id contains no `&`, any other id no `?`.
   */
  lemma GetIdSeparators(soup: FriendSoup)
    requires soup.anchorHref.Some?
    ensures var url := soup.anchorHref.value;
      var sep := if StartsWith(url, "/profile.php") then '&' else '?';
      var before := BeforeFirst(url, sep);
      GetId(soup) == Ok(Strip(before, Scraper.Slash)) &&
      before == url[..|before|] && (|before| == |url| || url[|before|] == sep) &&
      sep !in GetId(soup).value
  {
    var url := soup.anchorHref.value;
    var sep := if StartsWith(url, "/profile.php") then '&' else '?';
    StripKeepsOut(BeforeFirst(url, sep), Scraper.Slash, sep);
  }

  /**
   * A profile link keeps its `?id=` query and loses what follows the first `&`:
   * `/profile.php?id=1&fref=pb` gives `profile.php?id=1`.
   */
  lemma GetIdProfileLink(soup: FriendSoup, id: string, rest: string)
    requires soup.anchorHref == Some("/profile.php?id=" + id + "&" + rest)
    requires '&' !in id && (id != [] ==> id[|id| - 1] != '/')
    ensures GetId(soup) == Ok("profile.php?id=" + id)
  {
    var q := "profile.php?id=" + id;
    var url := soup.anchorHref.value;
    ProfileLinkShape(id, rest);
    BeforeFirstStops("/" + q, '&', rest);
    assert q[0] == 'p' && q[|q| - 1] != '/';
    Scraper.StripLeadingSlash(q);
  }

  /** A profile link starts with `/profile.php`, and its first `&` is the one after the id. */
  lemma ProfileLinkShape(id: string, rest: string)
    requires '&' !in id
    ensures var url := "/profile.php?id=" + id + "&" + rest;
      StartsWith(url, "/profile.php") && url == "/" + ("profile.php?id=" + id) + "&" + rest &&
      '&' !in "/" + ("profile.php?id=" + id)
  {
    var head := "/profile.php?id=";
    var url := head + id + "&" + rest;
    assert url[..12] == head[..12] == "/profile.php";
    assert "/" + ("profile.php?id=" + id) == head + id;
    forall k | 0 <= k < |head + id| ensures (head + id)[k] != '&' {
      if k >= |head| { assert (head + id)[k] == id[k - |head|]; }
    }
  }

  /** Any other link is cut at the first `?`: `/jane.doe?fref=fr_tab` gives `jane.doe`. */
  lemma GetIdVanityLink(soup: FriendSoup, name: string, rest: string)
    requires soup.anchorHref == Some("/" + name + "?" + rest)
    requires !StartsWith(soup.anchorHref.value, "/profile.php")
    requires '?' !in name && (name != [] ==> name[0] != '/' && name[|name| - 1] != '/')
    ensures GetId(soup) == Ok(name)
  {
    var url := soup.anchorHref.value;
    assert url == "/" + name + ("?" + rest);
    BeforeFirstStops("/" + name, '?', rest);
    Scraper.StripLeadingSlash(name);
  }

  /** The index of the first of `strings` that is not blank, or `|strings|` if all are. */
  function FirstNonBlank(strings: seq<string>): (k: nat)
    ensures k <= |strings|
    ensures forall j :: 0 <= j < k ==> Strip(strings[j], Whitespace) == []
    ensures k < |strings| ==> Strip(strings[k], Whitespace) != []
  {
    if strings == [] || Strip(strings[0], Whitespace) != [] then 0
    else
      var k := 1 + FirstNonBlank(strings[1..]);
      assert forall j :: 1 <= j < |strings| ==> strings[j] == strings[1..][j - 1];
      k
  }

  /** The first of the entry's strings that is not blank, with its surrounding whitespace removed (`stripped_strings`). */
  function FirstStripped(strings: seq<string>): (r: Option<string>)
    ensures r.Some? ==> r.value != [] && !IsSpace(r.value[0])
    ensures r.None? <==> forall k :: 0 <= k < |strings| ==> Strip(strings[k], Whitespace) == []
    ensures r.Some? ==> exists k :: 0 <= k < |strings| && r.value == Strip(strings[k], Whitespace) &&
                                    forall j :: 0 <= j < k ==> Strip(strings[j], Whitespace) == []
  {
    var k := FirstNonBlank(strings);
    if k < |strings| then Some(Strip(strings[k], Whitespace)) else None
  }

  /**
   * `get_num_common_friends`: the integer value of the first word of the first
   * non-blank string of the entry's `div`. A `div` without text is StopIteration,
   * which is caught and gives `None`; a missing `div` or a first word that is not
   * an integer raises, since nothing else is caught.
   */
  function GetNumCommonFriends(soup: FriendSoup): (r: Result<Option<int>>)
    ensures soup.divStrings.None? ==> r == Err(AttributeError)
    ensures r == Ok(None) <==> soup.divStrings.Some? && FirstStripped(soup.divStrings.value).None?
    ensures r.Ok? && r.value.Some? ==>
      soup.divStrings.Some? && FirstStripped(soup.divStrings.value).Some? &&
      var t := FirstStripped(soup.divStrings.value).value;
      Words(t) != [] && ParseInt(Words(t)[0]) == r.value
    ensures r == Err(ValueError) ==>
      soup.divStrings.Some? && FirstStripped(soup.divStrings.value).Some? &&
      var t := FirstStripped(soup.divStrings.value).value;
      Words(t) != [] && ParseInt(Words(t)[0]).None?
    ensures soup.divStrings.Some? && FirstStripped(soup.divStrings.value).Some? ==>
      var t := FirstStripped(soup.divStrings.value).value;
      Words(t) != [] &&
      r == (if ParseInt(Words(t)[0]).Some? then Ok(ParseInt(Words(t)[0])) else Err(ValueError))
  {
    match soup.divStrings
    case None => Err(AttributeError)
    case Some(strings) =>
      match FirstStripped(strings)
      case None => Ok(None)
      case Some(t) =>
        WordsNonEmpty(t);
        var first := Words(t)[0];
        match ParseInt(first)
        case None => Err(ValueError)
        case Some(n) => Ok(Some(n))
  }

  /** A count written as the first word, say "12 mutual friends", is read as that number. */
  lemma NumCommonFriendsCount(soup: FriendSoup, t: string, n: nat)
    requires soup.divStrings.Some? && FirstStripped(soup.divStrings.value) == Some(t)
    requires Words(t) != [] && Words(t)[0] == Decimal(n)
    ensures GetNumCommonFriends(soup) == Ok(Some(n))
  {
    ParseIntDecimal(n);
  }

  /** A signed first word, say "-3", is read with its sign, as `int` does. */
  lemma NumCommonFriendsNegative(soup: FriendSoup, t: string, digits: string)
    requires soup.divStrings.Some? && FirstStripped(soup.divStrings.value) == Some(t)
    requires Words(t) != [] && Words(t)[0] == "-" + digits && IsNumeric(digits)
    ensures GetNumCommonFriends(soup) == Ok(Some(-(DigitsValue(digits) as int)))
  {
    ParseNegative(digits);
  }

  /** `get_profile_picture_url`: the image's `src`, which may be `None`; no image raises. */
  function GetProfilePictureUrl(soup: FriendSoup): (r: Result<Option<string>>)
    ensures r.Err? <==> soup.imageSrc.None?
    ensures r.Ok? ==> r.value == soup.imageSrc.value
  {
    match soup.imageSrc
    case None => Err(AttributeError)
    case Some(src) => Ok(src)
  }

  /**
   * `create_friend_from_soup`: the extractors that can raise must all succeed;
   * they run in keyword order (id, name, picture, common friends), so the first
   * exception in that order escapes to the caller.
   */
  function CreateFriendFromSoup(soup: FriendSoup): (r: Result<Friend>)
    ensures r.Ok? <==> GetId(soup).Ok? && GetProfilePictureUrl(soup).Ok? && GetNumCommonFriends(soup).Ok?
    ensures r.Ok? ==> r.value.id == GetId(soup).value && r.value.name == soup.name &&
                      r.value.numCommonFriends == GetNumCommonFriends(soup).value &&
                      r.value.profilePictureUrl == GetProfilePictureUrl(soup).value
    ensures GetId(soup).Err? ==> r == Err(GetId(soup).error)
    ensures GetId(soup).Ok? && GetProfilePictureUrl(soup).Err? ==> r == Err(AttributeError)
    ensures GetId(soup).Ok? && GetProfilePictureUrl(soup).Ok? && GetNumCommonFriends(soup).Err? ==>
      r == Err(GetNumCommonFriends(soup).error)
  {
    match GetId(soup)
    case Err(e) => Err(e)
    case Ok(id) =>
      match GetProfilePictureUrl(soup)
      case Err(e) => Err(e)
      case Ok(picture) =>
        match GetNumCommonFriends(soup)
        case Err(e) => Err(e)
        case Ok(common) => Ok(Friend(id, soup.name, common, picture))
  }

  /** A friend's URL is exactly root, slash, id: the id already has no slash at either end. */
  lemma FriendUrlExact(soup: FriendSoup)
    requires CreateFriendFromSoup(soup).Ok?
    ensures FriendUrl(CreateFriendFromSoup(soup).value) ==
            Config.HomeUri + "/" + CreateFriendFromSoup(soup).value.id
  {
    Scraper.CreateUrlVerbatim(CreateFriendFromSoup(soup).value.id);
  }

  // ------------------------------------------------- traversal

  /**
   * The `for f in friends_soups: yield create_friend_from_soup(f)` loop: friends
   * are yielded in order until one raises, which ends the generator.
   */
  function YieldFriends(soups: seq<FriendSoup>): (w: Walk<Friend>)
    ensures |w.items| <= |soups|
    ensures forall k :: 0 <= k < |w.items| ==> CreateFriendFromSoup(soups[k]) == Ok(w.items[k])
    ensures w.complete <==> |w.items| == |soups|
    ensures !w.complete ==> CreateFriendFromSoup(soups[|w.items|]).Err?
  {
    YieldEach(CreateFriendFromSoup, soups)
  }

  /** A fetched friend-list page: its `table` elements and its text nodes. */
  datatype FriendsDoc = FriendsDoc(tables: seq<FriendSoup>, texts: seq<TextNode>)

  /** `get_next_friends_url`. */
  function GetNextFriendsUrl(doc: FriendsDoc): (r: NextLink)
    ensures r == NoNext <==> forall k :: 0 <= k < |doc.texts| ==> doc.texts[k].text != Config.NextFriendsText
    ensures r.NextUrl? <==> exists h :: FindText(doc.texts, Config.NextFriendsText) == Some(TextNode(Config.NextFriendsText, Some(h))) &&
                                        r == NextUrl(Scraper.CreateUrl(h))
  {
    LocateNext(doc.texts, Config.NextFriendsText)
  }

  /** One page of `fetch_friends`: its friends, then (if none raised) its next link. */
  function FriendsPage(doc: FriendsDoc): PageYield<Friend>
  {
    var w := YieldFriends(GetFriendsAsSoups(doc.tables));
    PageYield(w.items, if w.complete then GetNextFriendsUrl(doc) else Broken)
  }

  function FriendsPages(docs: seq<FriendsDoc>): (ps: seq<PageYield<Friend>>)
    ensures |ps| == |docs| && forall k :: 0 <= k < |docs| ==> ps[k] == FriendsPage(docs[k])
  {
    seq(|docs|, i requires 0 <= i < |docs| => FriendsPage(docs[i]))
  }

  /** `fetch_friends` over the chain of documents its successive fetches return. */
  function FetchFriends(docs: seq<FriendsDoc>): (w: Walk<Friend>)
    ensures docs == [] ==> w == Walk([], false)
    ensures docs != [] ==> FriendsPage(docs[0]).items <= w.items
    ensures w.complete ==> exists k :: 0 <= k < |docs| && FriendsPage(docs[k]).next == NoNext
  {
    Chain(FriendsPages(docs))
  }

  /**
   * A page whose entries all convert yields one friend per table between the
   * first two and the last three, in page order, and then its next link.
   */
  lemma FriendsPageClean(doc: FriendsDoc)
    requires forall k :: 2 <= k < |doc.tables| - 3 ==> CreateFriendFromSoup(doc.tables[k]).Ok?
    ensures var p := FriendsPage(doc);
      |p.items| == (if |doc.tables| > 5 then |doc.tables| - 5 else 0) &&
      (forall k :: 0 <= k < |p.items| ==> Ok(p.items[k]) == CreateFriendFromSoup(doc.tables[k + 2])) &&
      p.next == GetNextFriendsUrl(doc)
  {
    var soups := GetFriendsAsSoups(doc.tables);
    assert forall k :: 0 <= k < |soups| ==> CreateFriendFromSoup(soups[k]).Ok? by {
      forall k | 0 <= k < |soups| ensures CreateFriendFromSoup(soups[k]).Ok? {
        assert soups[k] == doc.tables[k + 2];
      }
    }
  }

  /**
   * The generator's recursion: a page that links on yields its friends and then
   * everything `fetch_friends` yields from the next page; a page without the
   * marker ends the traversal after its friends.
   */
  lemma FetchFriendsStep(docs: seq<FriendsDoc>)
    requires docs != []
    ensures var p := FriendsPage(docs[0]);
      (p.next.NextUrl? ==>
        FetchFriends(docs) == Walk(p.items + FetchFriends(docs[1..]).items, FetchFriends(docs[1..]).complete)) &&
      (p.next == NoNext ==> FetchFriends(docs) == Walk(p.items, true))
  {
    assert FriendsPages(docs)[1..] == FriendsPages(docs[1..]);
  }

  /**
   * The whole traversal yields the friends of every visited page, in page order,
   * and ends normally exactly at a page without the marker.
   */
  lemma FetchFriendsSpec(docs: seq<FriendsDoc>)
    ensures var ps := FriendsPages(docs);
      FetchFriends(docs).items == Flatten(ItemsOf(ps[..Visited(ps)])) &&
      |FetchFriends(docs).items| == TotalLength(ItemsOf(ps[..Visited(ps)])) &&
      (FetchFriends(docs).complete <==> StopIndex(ps) < |ps| && ps[StopIndex(ps)].next == NoNext)
  {
    ChainSpec(FriendsPages(docs));
    ChainLength(FriendsPages(docs));
  }
}
