/**
 * The ingestion script: for each configured page, look up or create its page
 * record, then enqueue the page's posts dated today or later; workers take the
 * tasks off the queue, extract each post and store it. The workers run here one
 * step at a time, in sequence, after the producer.
 */
module GetPosts {
  import opened Wrappers
  import opened Posts
  import opened Store
  import opened Tasks
  import Pagination

  /** An entry of a page's feed: the calendar date of its timestamp, and the raw entry. */
  datatype FeedEntry = FeedEntry(date: int, soup: PostSoup)

  // ------------------------------------------------- get_or_create_page

  /**
   * Look the page up by name; when no record matches (the lookup raises
   * ClientResponseError), create exactly one record `{'name': name}`.
   */
  method GetOrCreatePage(pages: Collection, name: string) returns (page: Record)
    modifies pages
    ensures pages.records == AddPage(old(pages.records), name)
    ensures FirstNamed(pages.records, name) == Some(page.id)
    ensures page.fields == PageFields(name)
    ensures page.id < |pages.records| && pages.records[page.id] == PageFields(name)
    ensures FirstNamed(old(pages.records), name).Some? ==>
      pages.records == old(pages.records) && page.id == FirstNamed(old(pages.records), name).value
    ensures FirstNamed(old(pages.records), name).None? ==>
      pages.records == old(pages.records) + [PageFields(name)] && page.id == |old(pages.records)|
  {
    var found := FirstNamed(pages.records, name);
    if found.Some? {
      page := Record(found.value, pages.records[found.value]);
    } else {
      page := pages.Create(PageFields(name));
      GetOrCreateStable(old(pages.records), name);
    }
  }

  /** The pages collection after `get_or_create_page(name)`: one record more exactly when the name is not found. */
  function AddPage(records: seq<Fields>, name: string): seq<Fields>
  {
    if FirstNamed(records, name).Some? then records else records + [PageFields(name)]
  }

  /**
   * Get-or-create never duplicates a page: if no two page records share a name
   * before, none do after.
   */
  lemma AddPageNoDuplicates(records: seq<Fields>, name: string)
    requires NoDuplicatePages(records)
    ensures NoDuplicatePages(AddPage(records, name))
  {
    var r := AddPage(records, name);
    if FirstNamed(records, name).None? {
      forall i, j | 0 <= i < j < |r| && r[i].PageFields? ensures r[i] != r[j] {
        if j == |records| {
          assert r[i] == records[i];
        } else {
          assert r[i] == records[i] && r[j] == records[j];
        }
      }
    }
  }

  /** Once a page exists, looking it up again finds the same record and creates nothing. */
  lemma GetOrCreateStable(records: seq<Fields>, name: string)
    ensures FirstNamed(records + [PageFields(name)], name).Some?
    ensures FirstNamed(records, name).Some? ==>
      FirstNamed(records + [PageFields(name)], name) == FirstNamed(records, name)
    ensures FirstNamed(records, name).None? ==>
      FirstNamed(records + [PageFields(name)], name) == Some(|records|)
  {
    FirstNamedSnoc(records, PageFields(name), name);
  }

  /** Appending a record changes a lookup only when nothing earlier matched. */
  lemma {:induction false} FirstNamedSnoc(records: seq<Fields>, f: Fields, name: string)
    ensures FirstNamed(records + [f], name) ==
      if FirstNamed(records, name).Some? then FirstNamed(records, name)
      else if f == PageFields(name) then Some(|records|)
      else None
  {
    if records == [] {
      assert records + [f] == [f];
    } else {
      assert (records + [f])[0] == records[0];
      assert (records + [f])[1..] == records[1..] + [f];
      FirstNamedSnoc(records[1..], f, name);
    }
  }

  // ------------------------------------------------- fetch_page_posts

  /** The longest prefix of `feed` whose entries are dated `today` or later. */
  function TodaysPrefix(feed: seq<FeedEntry>, today: int): (r: seq<FeedEntry>)
    ensures |r| <= |feed| && r == feed[..|r|]
    ensures forall k :: 0 <= k < |r| ==> r[k].date >= today
    ensures |r| == |feed| || feed[|r|].date < today
  {
    if feed == [] || feed[0].date < today then []
    else [feed[0]] + TodaysPrefix(feed[1..], today)
  }

  /** Any prefix of recent entries that ends at the feed's end or at an older entry is `TodaysPrefix`. */
  lemma TodaysPrefixUnique(feed: seq<FeedEntry>, today: int, n: nat)
    requires n <= |feed|
    requires forall k :: 0 <= k < n ==> feed[k].date >= today
    requires n == |feed| || feed[n].date < today
    ensures TodaysPrefix(feed, today) == feed[..n]
  {
    var r := TodaysPrefix(feed, today);
    assert |r| <= n by {
      if n < |feed| {
        assert feed[..|r|] == r;
        assert forall k :: 0 <= k < |r| ==> feed[k].date >= today;
      }
    }
    assert |r| >= n by {
      if |r| < |feed| {
        assert feed[|r|].date < today;
      }
    }
  }

  /**
   * An entry older than today cuts the feed there: nothing from it on is
   * enqueued, even entries after it that are newer.
   */
  lemma OlderEntryCuts(feed: seq<FeedEntry>, today: int, k: nat)
    requires k < |feed| && feed[k].date < today
    ensures |TodaysPrefix(feed, today)| <= k
  {
    var r := TodaysPrefix(feed, today);
    assert forall j :: 0 <= j < |r| ==> feed[j] == r[j];
  }

  /** In particular an older first entry means nothing is enqueued. */
  lemma OlderFirstEntry(feed: seq<FeedEntry>, today: int)
    requires feed != [] && feed[0].date < today
    ensures TodaysPrefix(feed, today) == []
  {
    OlderEntryCuts(feed, today, 0);
  }

  /** The tasks for a page's entries: `(page.id, entry)` each, in feed order. */
  function TasksFor(pageId: RecordId, entries: seq<FeedEntry>): (ts: seq<Task>)
    ensures |ts| == |entries|
    ensures forall k :: 0 <= k < |ts| ==> ts[k] == Task(pageId, entries[k].soup)
  {
    seq(|entries|, k requires 0 <= k < |entries| => Task(pageId, entries[k].soup))
  }

  /**
   * Walk the feed in order, enqueueing `(page.id, entry)` for each entry dated
   * today or later and stopping at the first older one; `count` is the counter
   * `i`.
   */
  method FetchPagePosts(queue: TaskQueue, pageId: RecordId, feed: seq<FeedEntry>, today: int)
    returns (count: nat)
    requires queue.Valid()
    modifies queue
    ensures queue.Valid() && queue.InFlight() == old(queue.InFlight())
    ensures count == |TodaysPrefix(feed, today)|
    ensures queue.tasks == old(queue.tasks) + TasksFor(pageId, TodaysPrefix(feed, today))
    ensures queue.unfinished == old(queue.unfinished) + count
  {
    count := 0;
    while count < |feed|
      invariant count <= |feed| && queue.Valid()
      invariant forall k :: 0 <= k < count ==> feed[k].date >= today
      invariant queue.tasks == old(queue.tasks) + TasksFor(pageId, feed[..count])
      invariant queue.unfinished == old(queue.unfinished) + count
    {
      if feed[count].date < today {
        break;
      }
      queue.Put(Task(pageId, feed[count].soup));
      count := count + 1;
    }
    TodaysPrefixUnique(feed, today, count);
  }

  // ------------------------------------------------- fetch_post and the worker

  /**
   * The post extraction `fetch_post` awaits. The script calls a two-argument
   * coroutine that the library does not define; the worker side is therefore
   * stated for any extraction, and `Run` uses `Posts.CreatePostFromSoup`.
   */
  type Extractor = PostSoup -> Option<Post>

  /** How one `fetch_post` call ends. */
  datatype Outcome = Skipped | Stored(record: Record) | Raised

  /** What storing a task's post appends: one post record, unless extraction fails or `create` raises. */
  function Persisted(extract: Extractor, task: Task, createFails: bool): (fs: seq<Fields>)
    ensures |fs| <= 1
    ensures fs != [] <==> extract(task.soup).Some? && !createFails
  {
    match extract(task.soup)
    case None => []
    case Some(post) => if createFails then [] else [PostFields(task.page, post)]
  }

  /**
   * `fetch_post`: extract the post; on `None` log and store nothing, otherwise
   * create one record `{'page': page_id, 'post': fields}`. `createFails` says
   * whether the store's `create` raises for this call.
   */
  method FetchPost(posts: Collection, extract: Extractor, task: Task, createFails: bool) returns (outcome: Outcome)
    modifies posts
    ensures posts.records == old(posts.records) + Persisted(extract, task, createFails)
    ensures extract(task.soup).None? ==> outcome == Skipped
    ensures extract(task.soup).Some? && createFails ==> outcome == Raised
    ensures extract(task.soup).Some? && !createFails ==>
      outcome == Stored(Record(|old(posts.records)|,
                               PostFields(task.page, extract(task.soup).value)))
  {
    var res := extract(task.soup);
    if res.None? {
      return Skipped;
    }
    if createFails {
      return Raised;
    }
    var rec := posts.Create(PostFields(task.page, res.value));
    outcome := Stored(rec);
  }

  /**
   * One iteration of the worker loop. `cancelled` says whether a cancellation is
   * delivered during this iteration: at `get` on an empty queue it ends the
   * worker; on a task it arrives at the await inside `fetch_post`, before
   * anything is stored. Whatever happens to a task taken, `task_done` follows,
   * so the number of tasks in flight is what it was before the `get`.
   */
  method WorkerStep(queue: TaskQueue, posts: Collection, extract: Extractor, cancelled: bool, createFails: bool)
    returns (running: bool)
    requires queue.Valid()
    modifies queue, posts
    ensures queue.Valid() && queue.InFlight() == old(queue.InFlight())
    ensures running == !cancelled
    ensures old(queue.tasks) == [] ==>
      queue.tasks == [] && queue.unfinished == old(queue.unfinished) &&
      posts.records == old(posts.records)
    ensures old(queue.tasks) != [] ==>
      queue.tasks == old(queue.tasks)[1..] && queue.unfinished == old(queue.unfinished) - 1 &&
      posts.records == old(posts.records) +
        (if cancelled then [] else Persisted(extract, old(queue.tasks)[0], createFails))
  {
    var next := queue.TryGet();
    if next.None? {
      return !cancelled;
    }
    if !cancelled {
      var outcome := FetchPost(posts, extract, next.value, createFails);
    }
    var ok := queue.TaskDone();
    running := !cancelled;
  }

  /**
   * The records stored for a run of tasks, in processing order; task `k` is the
   * `k`-th processed and its `create` raises when `k` is in `failing`.
   */
  function PersistedAll(extract: Extractor, tasks: seq<Task>, failing: set<nat>): seq<Fields>
  {
    if tasks == [] then []
    else PersistedAll(extract, tasks[..|tasks| - 1], failing) + Persisted(extract, tasks[|tasks| - 1], |tasks| - 1 in failing)
  }

  /** The indices of the tasks whose post is extracted and whose `create` does not raise. */
  function StoredIndices(extract: Extractor, tasks: seq<Task>, failing: set<nat>): set<nat>
  {
    set k: nat | k < |tasks| && Persisted(extract, tasks[k], k in failing) != []
  }

  /**
   * An exception in one task does not stop the others: the number of records
   * stored is exactly the number of tasks whose extraction succeeds and whose
   * `create` does not raise.
   */
  lemma {:induction false} PersistedCount(extract: Extractor, tasks: seq<Task>, failing: set<nat>)
    ensures |PersistedAll(extract, tasks, failing)| == |StoredIndices(extract, tasks, failing)|
  {
    if tasks != [] {
      var n := |tasks| - 1;
      PersistedCount(extract, tasks[..n], failing);
      StoredIndicesLast(extract, tasks, failing);
      var last := Persisted(extract, tasks[n], n in failing);
      assert PersistedAll(extract, tasks, failing) == PersistedAll(extract, tasks[..n], failing) + last;
      var before := StoredIndices(extract, tasks[..n], failing);
      if last != [] {
        assert StoredIndices(extract, tasks, failing) == before + {n};
        assert |before + {n}| == |before| + 1;
      } else {
        assert StoredIndices(extract, tasks, failing) == before;
      }
    }
  }

  /** Adding the last task adds its index exactly when its record is stored. */
  lemma StoredIndicesLast(extract: Extractor, tasks: seq<Task>, failing: set<nat>)
    requires tasks != []
    ensures var n := |tasks| - 1;
      var before := StoredIndices(extract, tasks[..n], failing);
      n !in before &&
      StoredIndices(extract, tasks, failing) == before + (if Persisted(extract, tasks[n], n in failing) != [] then {n} else {})
  {
    var n := |tasks| - 1;
    var init := tasks[..n];
    var before := StoredIndices(extract, init, failing);
    var after := StoredIndices(extract, tasks, failing);
    var last: set<nat> := if Persisted(extract, tasks[n], n in failing) != [] then {n} else {};
    forall k: nat ensures k in after <==> k in before + last {
      if k < n {
        assert init[k] == tasks[k];
        assert k in after <==> k in before;
      } else if k == n {
        assert k in after <==> k in last;
      } else {
        assert k !in after && k !in before + last;
      }
    }
    assert after == before + last;
  }

  lemma PersistedAllSnoc(extract: Extractor, tasks: seq<Task>, t: Task, failing: set<nat>)
    ensures PersistedAll(extract, tasks + [t], failing) == PersistedAll(extract, tasks, failing) + Persisted(extract, t, |tasks| in failing)
  {
    assert (tasks + [t])[..|tasks|] == tasks;
  }

  /**
   * The worker loop over a queue, with the cancellation arriving once the queue
   * is empty (after `join` returns): every task is taken in order and marked
   * done, and the records stored are those `PersistedAll` lists.
   */
  method Worker(queue: TaskQueue, posts: Collection, extract: Extractor, failing: set<nat>)
    requires queue.Valid()
    modifies queue, posts
    ensures queue.Valid() && queue.tasks == []
    ensures queue.unfinished == old(queue.unfinished) - |old(queue.tasks)|
    ensures posts.records == old(posts.records) + PersistedAll(extract, old(queue.tasks), failing)
  {
    ghost var todo := queue.tasks;
    var k: nat := 0;
    var running := true;
    while running
      invariant queue.Valid() && k <= |todo|
      invariant running ==> queue.tasks == todo[k..]
      invariant !running ==> queue.tasks == [] && k == |todo|
      invariant queue.unfinished == old(queue.unfinished) - k
      invariant posts.records == old(posts.records) + PersistedAll(extract, todo[..k], failing)
      decreases |todo| - k + (if running then 1 else 0)
    {
      if queue.tasks == [] {
        running := WorkerStep(queue, posts, extract, true, k in failing);
      } else {
        WorkerAdvance(extract, todo, k, failing);
        running := WorkerStep(queue, posts, extract, false, k in failing);
        k := k + 1;
      }
    }
    assert todo[..k] == todo;
  }

  /** Taking task `k` off the rest of the queue: what remains, and what the stored records become. */
  lemma WorkerAdvance(extract: Extractor, todo: seq<Task>, k: nat, failing: set<nat>)
    requires k < |todo|
    ensures todo[k..] != [] && todo[k..][0] == todo[k] && todo[k..][1..] == todo[k + 1..]
    ensures PersistedAll(extract, todo[..k + 1], failing) ==
      PersistedAll(extract, todo[..k], failing) + Persisted(extract, todo[k], k in failing)
  {
    assert todo[..k + 1] == todo[..k] + [todo[k]];
    PersistedAllSnoc(extract, todo[..k], todo[k], failing);
  }

  // ------------------------------------------------- main

  /** The tasks the producer enqueues for each of the given pages. */
  function PageBatches(ids: seq<RecordId>, names: seq<string>, feedOf: string -> seq<FeedEntry>, today: int)
    : (bs: seq<seq<Task>>)
    requires |ids| == |names|
    ensures |bs| == |ids|
  {
    seq(|ids|, k requires 0 <= k < |ids| => TasksFor(ids[k], TodaysPrefix(feedOf(names[k]), today)))
  }

  /** All the tasks the producer enqueues, page after page in configuration order. */
  function PageTasks(ids: seq<RecordId>, names: seq<string>, feedOf: string -> seq<FeedEntry>, today: int)
    : seq<Task>
    requires |ids| == |names|
  {
    Pagination.Flatten(PageBatches(ids, names, feedOf, today))
  }

  /**
   * Pages are processed in configuration order: the tasks of the first `j` pages
   * all come before those of the remaining pages.
   */
  lemma PageTasksSplit(ids: seq<RecordId>, names: seq<string>, j: nat,
                       feedOf: string -> seq<FeedEntry>, today: int)
    requires |ids| == |names| && j <= |ids|
    ensures PageTasks(ids, names, feedOf, today) ==
      PageTasks(ids[..j], names[..j], feedOf, today) + PageTasks(ids[j..], names[j..], feedOf, today)
  {
    var head := PageBatches(ids[..j], names[..j], feedOf, today);
    var tail := PageBatches(ids[j..], names[j..], feedOf, today);
    assert PageBatches(ids, names, feedOf, today) == head + tail;
    Pagination.FlattenAppend(head, tail);
  }

  lemma PageTasksSnoc(ids: seq<RecordId>, names: seq<string>, id: RecordId, name: string,
                      feedOf: string -> seq<FeedEntry>, today: int)
    requires |ids| == |names|
    ensures PageTasks(ids + [id], names + [name], feedOf, today) ==
      PageTasks(ids, names, feedOf, today) + TasksFor(id, TodaysPrefix(feedOf(name), today))
  {
    var init := PageBatches(ids, names, feedOf, today);
    var last := TasksFor(id, TodaysPrefix(feedOf(name), today));
    assert PageBatches(ids + [id], names + [name], feedOf, today) == init + [last];
    Pagination.FlattenAppend(init, [last]);
    assert [last][1..] == [];
    assert Pagination.Flatten([last]) == last;
  }

  /** Each `ids[j]` is the id of a page record named `names[j]`. */
  ghost predicate Registered(records: seq<Fields>, ids: seq<RecordId>, names: seq<string>)
    requires |ids| == |names|
  {
    forall j :: 0 <= j < |ids| ==> ids[j] < |records| && records[ids[j]] == PageFields(names[j])
  }

  /** No two page records have the same name. */
  ghost predicate NoDuplicatePages(records: seq<Fields>)
  {
    forall i, j :: 0 <= i < j < |records| && records[i].PageFields? ==> records[i] != records[j]
  }

  /** Each `ids[j]` is the record a lookup of `names[j]` finds. */
  ghost predicate Resolved(records: seq<Fields>, ids: seq<RecordId>, names: seq<string>)
    requires |ids| == |names|
  {
    forall j {:trigger ids[j]} :: 0 <= j < |ids| ==> FirstNamed(records, names[j]) == Some(ids[j])
  }

  /** The pages collection after the per-page loop has run over `names`, in order. */
  function AfterPages(records: seq<Fields>, names: seq<string>): seq<Fields>
  {
    if names == [] then records
    else AddPage(AfterPages(records, names[..|names| - 1]), names[|names| - 1])
  }

  lemma AfterPagesSnoc(records: seq<Fields>, names: seq<string>, k: nat)
    requires k < |names|
    ensures AfterPages(records, names[..k + 1]) == AddPage(AfterPages(records, names[..k]), names[k])
  {
    assert names[..k + 1][..k] == names[..k];
  }

  /** A resolved lookup stays resolved when a page is got or created, and the new page resolves too. */
  lemma ResolvedStep(before: seq<Fields>, ids: seq<RecordId>, names: seq<string>, name: string, id: RecordId)
    requires |ids| == |names| && Resolved(before, ids, names)
    requires FirstNamed(AddPage(before, name), name) == Some(id)
    ensures Resolved(AddPage(before, name), ids + [id], names + [name])
  {
    var after := AddPage(before, name);
    forall j | 0 <= j < |ids| ensures FirstNamed(after, names[j]) == Some(ids[j]) {
      if after != before {
        FirstNamedSnoc(before, PageFields(name), names[j]);
      }
    }
  }

  lemma ResolvedRegistered(records: seq<Fields>, ids: seq<RecordId>, names: seq<string>)
    requires |ids| == |names| && Resolved(records, ids, names)
    ensures Registered(records, ids, names)
  {
    forall j | 0 <= j < |ids| ensures ids[j] < |records| && records[ids[j]] == PageFields(names[j]) {
      assert FirstNamed(records, names[j]) == Some(ids[j]);
    }
  }

  /** After the loop, every configured name is found. */
  lemma {:induction false} AfterPagesFinds(records: seq<Fields>, names: seq<string>, j: nat)
    requires j < |names|
    ensures FirstNamed(AfterPages(records, names), names[j]).Some?
  {
    var m := |names| - 1;
    var before := AfterPages(records, names[..m]);
    if j < m {
      assert names[..m][j] == names[j];
      AfterPagesFinds(records, names[..m], j);
      if FirstNamed(before, names[m]).None? {
        FirstNamedSnoc(before, PageFields(names[m]), names[j]);
      }
    } else if FirstNamed(before, names[m]).None? {
      GetOrCreateStable(before, names[m]);
    }
  }

  /** A collection in which every name is already found is left as it is. */
  lemma {:induction false} AfterPagesFound(records: seq<Fields>, names: seq<string>)
    requires forall j :: 0 <= j < |names| ==> FirstNamed(records, names[j]).Some?
    ensures AfterPages(records, names) == records
  {
    if names != [] {
      var m := |names| - 1;
      assert forall j :: 0 <= j < m ==> names[..m][j] == names[j];
      AfterPagesFound(records, names[..m]);
    }
  }

  /** Running the per-page loop a second time over the same names creates no page record. */
  lemma AfterPagesRerun(records: seq<Fields>, names: seq<string>)
    ensures AfterPages(AfterPages(records, names), names) == AfterPages(records, names)
  {
    forall j | 0 <= j < |names| ensures FirstNamed(AfterPages(records, names), names[j]).Some? {
      AfterPagesFinds(records, names, j);
    }
    AfterPagesFound(AfterPages(records, names), names);
  }

  /** The per-page loop never duplicates a page record. */
  lemma {:induction false} AfterPagesNoDuplicates(records: seq<Fields>, names: seq<string>)
    requires NoDuplicatePages(records)
    ensures NoDuplicatePages(AfterPages(records, names))
  {
    if names != [] {
      var m := |names| - 1;
      AfterPagesNoDuplicates(records, names[..m]);
      AddPageNoDuplicates(AfterPages(records, names[..m]), names[m]);
    }
  }

  /** `after` keeps every record of `before`, in place. */
  ghost predicate Extends(before: seq<Fields>, after: seq<Fields>)
  {
    |before| <= |after| && after[..|before|] == before
  }

  /** One iteration of `main`'s per-page loop: get or create the page, then enqueue its recent posts. */
  method IngestPage(queue: TaskQueue, pages: Collection, name: string, feed: seq<FeedEntry>, today: int)
    returns (id: RecordId)
    requires queue.Valid()
    modifies queue, pages
    ensures queue.Valid() && queue.InFlight() == old(queue.InFlight())
    ensures pages.records == AddPage(old(pages.records), name)
    ensures FirstNamed(pages.records, name) == Some(id)
    ensures queue.tasks == old(queue.tasks) + TasksFor(id, TodaysPrefix(feed, today))
    ensures queue.unfinished == old(queue.unfinished) + |TodaysPrefix(feed, today)|
  {
    var page := GetOrCreatePage(pages, name);
    var count := FetchPagePosts(queue, page.id, feed, today);
    id := page.id;
  }

  /**
   * The per-page loop of `main`: for each configured page name in order, get or
   * create its record, then enqueue its recent posts. `feedOf` gives each page's
   * feed.
   */
  method IngestPages(queue: TaskQueue, pages: Collection, pageNames: seq<string>,
                     feedOf: string -> seq<FeedEntry>, today: int)
    returns (ids: seq<RecordId>)
    requires queue.Valid()
    modifies queue, pages
    ensures queue.Valid() && queue.InFlight() == old(queue.InFlight())
    ensures |ids| == |pageNames| && Registered(pages.records, ids, pageNames)
    ensures pages.records == AfterPages(old(pages.records), pageNames)
    ensures Resolved(pages.records, ids, pageNames)
    ensures Extends(old(pages.records), pages.records)
    ensures queue.tasks == old(queue.tasks) + PageTasks(ids, pageNames, feedOf, today)
    ensures queue.unfinished == old(queue.unfinished) + |PageTasks(ids, pageNames, feedOf, today)|
  {
    ids := [];
    ghost var start := pages.records;
    ghost var queued := queue.tasks;
    var k := 0;
    while k < |pageNames|
      invariant k <= |pageNames| && |ids| == k && queue.Valid()
      invariant queue.InFlight() == old(queue.InFlight())
      invariant pages.records == AfterPages(start, pageNames[..k])
      invariant Resolved(pages.records, ids, pageNames[..k])
      invariant queue.tasks == queued + PageTasks(ids, pageNames[..k], feedOf, today)
    {
      ghost var before := pages.records;
      ghost var tasksBefore := queue.tasks;
      var id := IngestPage(queue, pages, pageNames[k], feedOf(pageNames[k]), today);
      PagesStep(start, before, ids, pageNames, k, id);
      IngestStepTasks(queued, tasksBefore, queue.tasks, ids, pageNames, id, feedOf, today);
      ids := ids + [id];
      k := k + 1;
    }
    assert pageNames[..k] == pageNames;
    ResolvedRegistered(pages.records, ids, pageNames);
    AfterPagesExtends(start, pageNames);
  }

  /** The pages collection after one more page is the loop's state for one more name. */
  lemma PagesStep(start: seq<Fields>, before: seq<Fields>, ids: seq<RecordId>, names: seq<string>, k: nat, id: RecordId)
    requires k < |names| && |ids| == k
    requires before == AfterPages(start, names[..k]) && Resolved(before, ids, names[..k])
    requires FirstNamed(AddPage(before, names[k]), names[k]) == Some(id)
    ensures AddPage(before, names[k]) == AfterPages(start, names[..k + 1])
    ensures Resolved(AddPage(before, names[k]), ids + [id], names[..k + 1])
  {
    AfterPagesSnoc(start, names, k);
    assert names[..k + 1] == names[..k] + [names[k]];
    ResolvedStep(before, ids, names[..k], names[k], id);
  }

  /** The per-page loop only appends page records. */
  lemma {:induction false} AfterPagesExtends(records: seq<Fields>, names: seq<string>)
    ensures Extends(records, AfterPages(records, names))
  {
    if names != [] {
      var m := |names| - 1;
      var before := AfterPages(records, names[..m]);
      AfterPagesExtends(records, names[..m]);
      assert Extends(before, AddPage(before, names[m])) by {
        assert (before + [PageFields(names[m])])[..|before|] == before;
      }
      ExtendsTrans(records, before, AddPage(before, names[m]));
    }
  }

  lemma ExtendsTrans(a: seq<Fields>, b: seq<Fields>, c: seq<Fields>)
    requires Extends(a, b) && Extends(b, c)
    ensures Extends(a, c)
  {
    assert c[..|b|][..|a|] == c[..|a|];
  }

  /** The queue after one more page holds the tasks of one more page. */
  lemma IngestStepTasks(start: seq<Task>, before: seq<Task>, after: seq<Task>, ids: seq<RecordId>,
                        names: seq<string>, id: RecordId, feedOf: string -> seq<FeedEntry>, today: int)
    requires |ids| < |names|
    requires before == start + PageTasks(ids, names[..|ids|], feedOf, today)
    requires after == before + TasksFor(id, TodaysPrefix(feedOf(names[|ids|]), today))
    ensures after == start + PageTasks(ids + [id], names[..|ids| + 1], feedOf, today)
  {
    var k := |ids|;
    assert names[..k + 1] == names[..k] + [names[k]];
    PageTasksSnoc(ids, names[..k], id, names[k], feedOf, today);
    AppendStep(start, before, after, PageTasks(ids, names[..k], feedOf, today),
               TasksFor(id, TodaysPrefix(feedOf(names[k]), today)),
               PageTasks(ids + [id], names[..k + 1], feedOf, today));
  }

  lemma AppendStep<T>(start: seq<T>, before: seq<T>, after: seq<T>, done: seq<T>, added: seq<T>, next: seq<T>)
    requires before == start + done && after == before + added && next == done + added
    ensures after == start + next
  {
  }

  /**
   * The whole run: a fresh queue, the producer over every configured page, then
   * the workers until `join` returns and they are cancelled. On return every
   * task has been marked done, and the posts collection has gained exactly the
   * records of the enqueued tasks that were extracted and stored.
   */
  method Run(pages: Collection, posts: Collection, pageNames: seq<string>,
             feedOf: string -> seq<FeedEntry>, today: int, failing: set<nat>)
    returns (ids: seq<RecordId>, queue: TaskQueue)
    requires pages != posts
    modifies pages, posts
    ensures |ids| == |pageNames| && Registered(pages.records, ids, pageNames)
    ensures pages.records == AfterPages(old(pages.records), pageNames)
    ensures Resolved(pages.records, ids, pageNames)
    ensures queue.tasks == [] && queue.Drained()
    ensures posts.records == old(posts.records) + PersistedAll(CreatePostFromSoup, PageTasks(ids, pageNames, feedOf, today), failing)
  {
    queue := new TaskQueue();
    ids := IngestPages(queue, pages, pageNames, feedOf, today);
    assert queue.tasks == PageTasks(ids, pageNames, feedOf, today);
    Worker(queue, posts, CreatePostFromSoup, failing);
  }
}
