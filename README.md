# Facebook scraper core, modelled in Dafny

This project models the core of a small Facebook scraper written in Python.

- **URL builders.** `create_url`, `create_friends_url` and `create_posts_uri`.
- **Child navigation.** The helpers `iterate`, `take_nth`, `get_nth_child` and `get_first_child`.
- **Friend extraction.** `get_id`, `get_profile_picture_url` and `get_num_common_friends` read one friend entry. `create_friend_from_soup` builds a friend from them, and an exception there propagates to the caller.
- **Post extraction.** `get_number_of_likes`, `get_number_of_comments` and `get_url` read one post. `create_post_from_soup` is all-or-nothing: any failure gives `None`.
- **Paginated traversals.** `fetch_friends`, `fetch_feed` and `fetch_feed_stream` are recursive generators. Each yields one page's entries, then follows the page's "next" link.
- **Ingestion script** (`scripts/get_posts.py`). For every configured page name, the producer gets or creates the page record. It then enqueues the page's posts dated today or later, stopping at the first older post. Workers take tasks off an `asyncio.Queue`, extract each post and store it in a PocketBase collection. Every task taken is marked done.

How the modules map to the system:

- `Wrappers`: `Option` and `Result`, with the Python exceptions that matter (`AttributeError`, `ValueError`, `IndexError`).
- `Text`: the `str` built-ins the core relies on: `strip`, `split()`, `split(c)[0]`, `isnumeric` and `int`.
- `Config`: the configuration constants. They are declared without values, so every property holds for any configuration. `config.py` is not part of this model.
- `Utils`, `Scraper`, `Friends` and `Posts`: one module per library file.
- `Pagination`: the traversal shape the three generators share.
- `Store`: a PocketBase collection, as a class whose record list grows.
- `Tasks`: the `asyncio.Queue` with its count of unfinished tasks, as a class.
- `GetPosts`: the script.

Representation choices:

- A fetched page is a datatype holding only what the extractors look at.
- A traversal runs over the sequence of pages its successive fetches return. A chain that runs out while a next link still exists stands for a fetch that raised.
- `Walk(items, complete)` is what a consumer of a generator sees: the entries yielded, and whether the generator returned normally or raised.

## Model

| member | source | states |
|---|---|---|
| Utils.Iterate | src/social_network/utils.py:7-9 | the first `n` elements of the lazy sequence `x, f(x), f(f(x)), ...`: there are exactly `n`, and element `k` is `f` applied `k` times to `x` |
| Utils.IteratePrefix | src/social_network/utils.py:7-9 | a shorter window of the lazy sequence is a prefix of a longer one, so how much of it is taken does not change its elements |
| Utils.TakeNth | src/social_network/utils.py:12-14 | `next(islice(x, n, n + 1))` succeeds exactly when the iterable has more than `n` elements, and then gives element `n`; otherwise StopIteration |
| Utils.TakeNthIterate | src/social_network/utils.py:7-14 | `take_nth(n, iterate(f, x))` is `f` applied `n` times to `x`, for any window longer than `n` |
| Text.StripPadded | src/social_network/facebook_scraper.py:14 | `strip(cs)` removes any margins made only of `cs` around a text with no `cs` at its ends, giving back that text |
| Text.StripIdempotent | src/social_network/facebook_scraper.py:14 | stripping twice is the same as stripping once |
| Text.StripPadMore | src/social_network/facebook_scraper.py:14 | adding more stripped characters at either end does not change the result of `strip` |
| Text.StripKeepsOut | src/social_network/facebook_friends.py:51-52 | `strip` adds no character: a character absent from the input is absent from the result |
| Text.BeforeFirst | src/social_network/facebook_friends.py:51-52 | `url.split(c)[0]` is the longest prefix without `c`, and is followed either by the end or by `c` |
| Text.BeforeFirstStops | src/social_network/facebook_friends.py:51-52 | for a text with no `c`, followed by `c` and anything at all, `split(c)[0]` is exactly that text |
| Text.Words | src/social_network/facebook_posts.py:70 | `split()` gives non-empty words without whitespace, and gives none exactly when the text is all whitespace |
| Text.WordsCons | src/social_network/facebook_posts.py:70 | a run of non-whitespace characters ended by a whitespace character is the first word, followed by the words of the rest |
| Text.WordsLeadingSpace | src/social_network/facebook_posts.py:70 | leading whitespace produces no word |
| Text.WordsSingle | src/social_network/facebook_posts.py:70 | a single run of non-whitespace characters is exactly one word |
| Text.ParseNumeric | src/social_network/facebook_posts.py:71-74 | `int` of a token that `isnumeric` accepts is the token's decimal digit value |
| Text.ParseIntDecimal | src/social_network/facebook_friends.py:65 | `int` reads back the decimal rendering of any natural number |
| Text.ParseNegative | src/social_network/facebook_friends.py:65 | `int` of `-` followed by digits is the negated digit value |
| Scraper.CreateUrl | src/social_network/facebook_scraper.py:13-14 | the URL is the root and `/`, followed by at most as many characters as the path has, with no `/` at either end |
| Scraper.CreateUrlShape | src/social_network/facebook_scraper.py:13-14 | the URL is the root, `/`, then a contiguous piece of the path with no `/` at either end; what was cut off on each side is only slashes |
| Scraper.CreateUrlPadded | src/social_network/facebook_scraper.py:13-14 | extra slashes at either end of the path give the same URL |
| Scraper.CreateUrlStripped | src/social_network/facebook_scraper.py:13-14 | passing a path through `strip('/')` first does not change the URL |
| Scraper.CreateUrlVerbatim | src/social_network/facebook_scraper.py:13-14 | a path with no slash at either end is appended unchanged |
| Scraper.GetNthChild | src/social_network/facebook_scraper.py:53-54 | the `n`-th child when there are more than `n` children, else None (StopIteration) |
| Scraper.GetFirstChild | src/social_network/facebook_scraper.py:57 | the first child when there is one, else None |
| Scraper.ApplyFirstChild | src/social_network/facebook_scraper.py:53-57 | applying the first-child step `n` times reaches the element `n` levels down along first children, or None if a level has no child |
| Pagination.Chain | src/social_network/facebook_friends.py:70-80 | a traversal over no fetched page yields nothing and raises; the first page's entries come first; a normal return needs a page without the marker |
| Pagination.FindText | src/social_network/facebook_friends.py:20 | `soup.find(string=s)` gives the first node whose text is exactly `s`, and None exactly when no node has that text |
| Pagination.LocateNext | src/social_network/facebook_friends.py:19-24 | no next link exactly when the marker text is absent; a next URL exactly when the first marker's grandparent has an `href`, the URL being `create_url` of it; otherwise the page raises |
| Pagination.YieldEach | src/social_network/facebook_friends.py:73-74 | `for f in xs: yield g(f)` yields `g`'s results in order, and returns normally exactly when all were yielded; otherwise `g` raised on the next input |
| Pagination.ChainSpec | src/social_network/facebook_friends.py:70-80 | a traversal yields the entries of every page up to and including the first that does not link on, concatenated in page order; it returns normally exactly when that page exists and lacks the marker |
| Pagination.ChainLength | src/social_network/facebook_friends.py:70-80 | the number of entries yielded is the sum of the visited pages' entry counts |
| Pagination.ChainSinglePage | src/social_network/facebook_friends.py:77-78 | a first page without the marker yields only its own entries and returns normally |
| Pagination.ChainPrefix | src/social_network/facebook_friends.py:77-80 | pages after one without a next link are never fetched: appending pages does not change the traversal |
| Pagination.ChainUniform | src/social_network/facebook_friends.py:70-80 | `K` linked pages of `M` entries, the last without a next link, yield `K * M` entries and return normally |
| Pagination.FlattenAppend | src/social_network/facebook_friends.py:79-80 | yielding the pages of two chains one after the other yields the first chain's entries, then the second's |
| Friends.CreateFriendsUrl | src/social_network/facebook_friends.py:11-12 | the URL is root, `/`, the user id, `/`, the friends path, each readable back at its position |
| Friends.CreateFriendsUrlInjective | src/social_network/facebook_friends.py:11-12 | distinct user ids give distinct friend-list URLs |
| Friends.GetFriendsAsSoups | src/social_network/facebook_friends.py:15-16 | `[2:-3]` keeps all tables but the first two and the last three, in order: `n - 5` of them, or none when there are at most five |
| Friends.GetNextFriendsUrl | src/social_network/facebook_friends.py:19-24 | no next link exactly when the next-friends text is absent; a next URL exactly when its first occurrence's grandparent has an `href`, the URL being `create_url` of it |
| Friends.GetId | src/social_network/facebook_friends.py:48-52 | raises exactly when the entry has no link `href`; otherwise the id has no `/` at either end |
| Friends.GetIdSeparators | src/social_network/facebook_friends.py:48-52 | the id is the part of the link before its separator (`&` for `/profile.php` links, `?` otherwise), with the slashes at both ends removed, and it contains no separator |
| Friends.GetIdProfileLink | src/social_network/facebook_friends.py:50-51 | `/profile.php?id=X&anything` gives `profile.php?id=X` |
| Friends.GetIdVanityLink | src/social_network/facebook_friends.py:52 | `/name?anything` gives `name` for any other link |
| Friends.FirstStripped | src/social_network/facebook_friends.py:65 | `next(stripped_strings)` is the strip of some string all of whose predecessors are blank, and starts with a non-space; none exactly when every string is blank |
| Friends.GetNumCommonFriends | src/social_network/facebook_friends.py:63-67 | `None` exactly when the `div` has no text (StopIteration is caught); otherwise exactly `Ok` of the `int` of the first word when `int` accepts it, and ValueError when it does not; AttributeError when there is no `div` |
| Friends.NumCommonFriendsCount | src/social_network/facebook_friends.py:63-67 | a first word that is the decimal rendering of `n` gives `n` |
| Friends.NumCommonFriendsNegative | src/social_network/facebook_friends.py:65 | a first word `-` followed by digits gives the negated digit value |
| Friends.GetProfilePictureUrl | src/social_network/facebook_friends.py:59-60 | raises exactly when the entry has no image; otherwise the image's `src`, which may be `None` |
| Friends.CreateFriendFromSoup | src/social_network/facebook_friends.py:39-45 | a friend exactly when `get_id`, `get_profile_picture_url` and `get_num_common_friends` all succeed, holding their values and the entry's name; the exception raised is the first in keyword order: id, then picture, then common friends |
| Friends.FriendUrl | src/social_network/facebook_friends.py:34-36 | the URL starts with root and `/`, and an id with no slash at either end appears verbatim after it |
| Friends.FriendUrlExact | src/social_network/facebook_friends.py:34-36 | a friend's URL is exactly root, `/`, id, since the id has no slash at either end |
| Friends.YieldFriends | src/social_network/facebook_friends.py:73-74 | friends are yielded in entry order until the first entry whose conversion raises, which ends the generator |
| Friends.FriendsPageClean | src/social_network/facebook_friends.py:71-77 | a page whose entries all convert yields one friend per kept table, in order, then its next link |
| Friends.FetchFriends | src/social_network/facebook_friends.py:70-80 | a first fetch that raises yields nothing; the first page's friends are yielded first; a normal return needs a page without the marker |
| Friends.FetchFriendsStep | src/social_network/facebook_friends.py:70-80 | a page that links on yields its friends, then what the recursive call yields; a page without the marker ends the traversal |
| Friends.FetchFriendsSpec | src/social_network/facebook_friends.py:70-80 | the friends of every visited page in page order, as many as those pages hold; a normal return exactly at a page without the marker |
| Posts.CreatePostsUri | src/social_network/facebook_posts.py:10-11 | the URL is root, `/`, the page id, then `/?v=timeline`, the page id readable back at its position |
| Posts.CreatePostsUriInjective | src/social_network/facebook_posts.py:10-11 | distinct page ids give distinct feed URLs |
| Posts.GetNumberOfLikes | src/social_network/facebook_posts.py:61-63 | a count exactly when the footer link exists and its text is an integer, and then the count is the `int` of that text |
| Posts.LikesDecimal | src/social_network/facebook_posts.py:61-63 | a footer link reading the decimal rendering of `n` gives `n` likes |
| Posts.CommentCount | src/social_network/facebook_posts.py:70-77 | no count exactly when there are no words; a non-zero count is the value of the numeric first word, or else of the numeric last word |
| Posts.GetNumberOfComments | src/social_network/facebook_posts.py:66-77 | no count exactly when the comments section is missing or its text is blank; otherwise 0, the first word's value or the last word's value |
| Posts.CommentsFirstWins | src/social_network/facebook_posts.py:71-72 | a numeric first word is the count |
| Posts.CommentsLastWord | src/social_network/facebook_posts.py:73-74 | otherwise a numeric last word is the count |
| Posts.CommentsNone | src/social_network/facebook_posts.py:75-76 | otherwise the count is 0 |
| Posts.CommentsLeadingCount | src/social_network/facebook_posts.py:70-72 | "`n` comments" gives the count `n` |
| Posts.CommentsTrailingCount | src/social_network/facebook_posts.py:70-74 | "Comments `n`", with a non-numeric first word, gives the count `n` |
| Posts.CommentsFromText | src/social_network/facebook_posts.py:66-77 | no count (IndexError) exactly when the comments text is blank; otherwise the count is 0, the value of the first word or the value of the last word |
| Posts.CreatePostFromSoup | src/social_network/facebook_posts.py:35-45 | a post exactly when all five extractors succeed, holding their values; `None` as soon as one raises, never a partial post |
| Posts.BlankCommentsDropPost | src/social_network/facebook_posts.py:66-70 | a post with a blank comments text is dropped, since its IndexError is caught |
| Posts.ExtractAll | src/social_network/facebook_posts.py:88 | one result per entry, in entry order, each that entry's extraction |
| Posts.GetNextPostsUrl | src/social_network/facebook_posts.py:18-23 | no next link exactly when the next-feed text is absent; a next URL exactly when its first occurrence's grandparent has an `href`, the URL being `create_url` of it |
| Posts.StreamContainer | src/social_network/facebook_posts.py:98-99 | the post container is the second table's element five levels down along first children; none when there is no second table or a level is missing |
| Posts.FetchFeedStream | src/social_network/facebook_posts.py:96-105 | a first fetch that raises yields nothing; the first page's results are yielded first; a normal return needs a page without the marker |
| Posts.FetchFeed | src/social_network/facebook_posts.py:84-93 | a first fetch that raises yields nothing; the first page's results are yielded first, then, when it links on, exactly what `fetch_feed_stream` yields |
| Posts.FetchFeedStep | src/social_network/facebook_posts.py:84-93 | `fetch_feed` yields the first page's results, then exactly what `fetch_feed_stream` yields from the next link; without the marker it ends after the first page |
| Posts.FetchFeedStreamStep | src/social_network/facebook_posts.py:96-105 | `fetch_feed_stream` yields a page's results, then recurses on the next link, and ends at a page without the marker |
| Posts.FetchFeedSpec | src/social_network/facebook_posts.py:84-105 | a feed traversal yields the results of every visited page in page order, as many as those pages hold; a normal return exactly at a page without the marker |
| Posts.FetchFeedAsWritten | src/social_network/facebook_posts.py:84-89 | as written, with `fetch_html` not awaited, `fetch_feed` never yields a post and always raises |
| Posts.UnawaitedFeedLosesPosts | src/social_network/facebook_posts.py:84-89 | a one-page feed with posts and no next marker: awaited, every post is yielded and the traversal ends normally; as written, nothing is yielded |
| Posts.StreamPageWithoutMarker | src/social_network/facebook_posts.py:103-105 | a later page whose container is found and which lacks the marker yields its results and links nowhere |
| Store.FirstNamed | scripts/get_posts.py:35 | `get_first_list_item('name = ...')` finds the first page record with that name, and finds none exactly when no record has it |
| Store.Collection.Create | scripts/get_posts.py:38 | `create` appends exactly one record and returns it with the next id |
| Tasks.TaskQueue.Put | scripts/get_posts.py:52 | `put` appends the task and counts one more unfinished task |
| Tasks.TaskQueue.TryGet | scripts/get_posts.py:70 | `get` takes the head of the queue and leaves the unfinished count alone; an empty queue gives nothing and changes nothing |
| Tasks.TaskQueue.TaskDone | scripts/get_posts.py:84 | `task_done` counts one task less, and fails exactly when none is unfinished |
| GetPosts.GetOrCreatePage | scripts/get_posts.py:33-38 | an existing page is returned with the store unchanged; a missing page gets exactly one new record `{'name': name}`; either way the result is the record a lookup of that name now finds |
| GetPosts.AddPageNoDuplicates | scripts/get_posts.py:33-38 | get-or-create never makes two page records with the same name |
| GetPosts.GetOrCreateStable | scripts/get_posts.py:33-38 | once a page exists, a second lookup finds the same record, so no duplicate is created |
| GetPosts.FirstNamedSnoc | scripts/get_posts.py:35-38 | a created record changes a lookup only when nothing earlier matched |
| GetPosts.TodaysPrefix | scripts/get_posts.py:49-51 | the enqueued entries are the longest prefix of the feed dated today or later |
| GetPosts.TodaysPrefixUnique | scripts/get_posts.py:49-53 | any prefix of recent entries that ends at the feed's end or at an older entry is that prefix |
| GetPosts.OlderEntryCuts | scripts/get_posts.py:50-51 | nothing from the first older entry on is enqueued, even newer entries after it |
| GetPosts.OlderFirstEntry | scripts/get_posts.py:50-51 | an older first entry enqueues nothing |
| GetPosts.TasksFor | scripts/get_posts.py:52 | one `(page.id, entry)` task per entry, in feed order |
| GetPosts.FetchPagePosts | scripts/get_posts.py:41-54 | the queue gains exactly the tasks for the feed's recent prefix, in order; the counter is its length; no task is put in flight |
| GetPosts.Persisted | scripts/get_posts.py:57-64 | at most one record is stored, and one exactly when extraction succeeds and `create` does not raise |
| GetPosts.FetchPost | scripts/get_posts.py:57-64 | the collection gains exactly what `Persisted` says; the outcome is skipped, raised or the stored record |
| GetPosts.WorkerStep | scripts/get_posts.py:67-84 | an empty queue changes nothing; otherwise the head task is taken and marked done, stored unless cancelled; the number in flight is kept |
| GetPosts.PersistedCount | scripts/get_posts.py:72-84 | a failing task does not stop the others: the number of records stored equals the number of tasks that extract and store without raising |
| GetPosts.Worker | scripts/get_posts.py:67-84 | the worker takes every task in order and marks each done; the records stored are those of the tasks that extract and store, in processing order |
| GetPosts.PageTasksSplit | scripts/get_posts.py:111-113 | pages are processed in configuration order: the tasks of the first `j` pages come before those of the rest |
| GetPosts.IngestPage | scripts/get_posts.py:112-113 | one page: the store after `get_or_create_page`, the returned id is what a lookup of the name finds, and the queue gains that page's recent tasks |
| GetPosts.IngestPages | scripts/get_posts.py:111-113 | the pages collection becomes exactly `AfterPages` of the configured names, each id is what a lookup of its name finds; the queue gains every page's recent tasks, page by page, and as many unfinished tasks |
| GetPosts.AfterPagesFinds | scripts/get_posts.py:111-113 | after the loop every configured name has a page record |
| GetPosts.AfterPagesExtends | scripts/get_posts.py:111-113 | the loop only appends page records, keeping every existing record in place |
| GetPosts.AfterPagesNoDuplicates | scripts/get_posts.py:111-113 | the loop never duplicates a page record |
| GetPosts.AfterPagesRerun | scripts/get_posts.py:111-113 | running the loop again over the same names creates no record |
| GetPosts.Run | scripts/get_posts.py:103-118 | after `join` every task is done and the queue is empty; the pages collection is exactly `AfterPages` of the configured names; the posts collection gains exactly the stored records of all enqueued tasks |

## Left out

- Logging in, the HTTP session and `fetch_html` are modelled by their result only. This covers `create_session`, `_get_login_data` and the HTTP status check. A fetch is the next document of a traversal's chain, and a fetch that raises is the chain running out.
- BeautifulSoup navigation is not modelled. Each extractor sees a datatype holding just the value it reads, with `None` where the lookup it makes raises. `get_name` raises only when the entry has no link, and `get_id`, which runs first, already raises then; so the name is a plain field.
- `get_timestamp`, `get_content` and `get_name` are abstract fields of their entry. The JSON decoding and time-zone conversion inside `get_timestamp` are not modelled.
- GetPosts.FetchPagePosts: the producer reads each entry's calendar date from `FeedEntry.date`. The model does not capture `get_timestamp` raising while the feed is read.
- GetPosts.Run: covers only runs in which every page's feed is read without raising. In the script, an exception from the feed or from `get_timestamp` escapes `fetch_page_posts`, ends the loop over pages (so later pages get no record and no tasks) and `queue.join()` is never reached; `GetPosts.IngestPages` and `GetPosts.Run` always complete every page and reach the join.
- `get_posts_as_soups` is folded into `Posts.FeedPage`. A missing feed block makes the first page raise before it yields anything.
- Asyncio scheduling and interleaving are not modelled, nor `NUM_WORKERS` or `asyncio.sleep`. The workers run one step at a time after the producer. Cancellation is a parameter of `GetPosts.WorkerStep`. The record order in the store under real concurrency is therefore not modelled.
- Process setup is not modelled: reading `config.yml`, the environment variables, and connecting and authenticating to PocketBase (`scripts/get_posts.py:87-110`). The page names, each page's feed and today's date are parameters of `GetPosts.Run`.
- The configuration values (`HOME_URI`, `FRIENDS_PATH`, `NEXT_FRIENDS_TEXT`, `NEXT_FEED_TEXT`, `home_uri`) are constants without a value.
- Text.ParseInt: `int` and `isnumeric` accept ASCII digits only. Python also accepts other Unicode digits and `_` separators. `isspace` likewise covers only the ASCII whitespace characters.
- The script imports `fetch_feed_generator` and awaits a two-argument `create_post_from_soup`. Neither exists in `facebook_posts.py`. The worker is therefore stated for any extraction function (`GetPosts.Extractor`), and `GetPosts.Run` uses the one-argument `Posts.CreatePostFromSoup`. The producer's feed is a parameter.
- Posts.FetchFeed: the traversal treats each fetched document as awaited; the missing `await` is recorded under "## Findings".
- GetPosts.GetOrCreatePage: the store's `create` failing, and lookup errors other than "no such record", are not modelled.
- Store.FirstNamed: the lookup is exact name equality. The quoting of the PocketBase filter string is not modelled.
- GetPosts.FetchPost: whether the store's `create` raises is an input, given for each task processed (`failing` in `GetPosts.Worker`).
- The lifetime of the HTTP session is not modelled. `main` waits for the queue only after the `async with create_session` block has closed the session (`scripts/get_posts.py:107-115`). Tasks still queued then are processed with a closed client, which matters when the extraction fetches. Running the workers after the producer is exactly this situation.
- GetPosts.Worker: a cancellation delivered while tasks remain is modelled in `GetPosts.WorkerStep` only. `Worker` receives it once the queue is empty, which is what `main` does after `join`.

## Findings

| source | as written | input that shows it | evidently intended | confidence | as-written member | corrected member |
|---|---|---|---|---|---|---|
| src/social_network/facebook_posts.py:86 | `fetch_feed` calls the coroutine function `fetch_html` without `await`, so `soup` is a coroutine object and `get_posts_as_soups` raises AttributeError before any post is yielded; `fetch_feed_stream` (line 97) has the same defect | a feed whose first page holds posts and no next marker | await the fetched document, then yield each page's posts | not executed; high, since calling a coroutine function returns a coroutine | Posts.FetchFeedAsWritten | Posts.FetchFeedSpec |
