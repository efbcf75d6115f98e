/** Copying the file posts into the `blog_posts` table, with a log row per run, and reading the
    latest run's status back. The table and the log are a class's fields; what each database
    write answers is a parameter. */
module SyncFileBlogs {
  import opened Wrappers
  import opened Strings
  import opened FileBlogPosts
  import opened BlogPosts

  /** The row a sync writes for a post (the insert shape: no id and no bookkeeping times). */
  datatype SyncRow = SyncRow(
    notionPageId: string, title: string, slug: string, excerpt: Option<string>, content: string,
    metaTitle: Option<string>, metaDescription: Option<string>, ogImage: Option<string>,
    author: Option<string>, tags: Option<seq<string>>, category: Option<string>,
    published: bool, publishedAt: int, notionLastEditedTime: Option<int>)

  /** The row for `post`; a post without a date is published "now". */
  function SyncRowOf(post: Post, now: int): (row: SyncRow)
    ensures row.notionPageId == PageKey(post.slug) && row.slug == post.slug
    ensures row.publishedAt == post.meta.date.GetOr(now)
  {
    SyncRow(PageKey(post.slug), post.meta.title, post.slug, OrNull(post.meta.description), post.content,
            OrNull(post.meta.seoTitle), FirstOf(post.meta.seoDescription, post.meta.description),
            FirstOf(post.meta.socialImage, post.meta.image), OrNull(post.meta.author),
            Some(post.meta.tags), OrNull(post.meta.category), post.meta.published,
            post.meta.date.GetOr(now),
            if post.meta.lastModified.Some? then post.meta.lastModified else post.meta.date)
  }

  /** What the update or insert for a post answered: success, a reported error, or an
      exception. */
  datatype DbCall = Done | DbError(message: string) | Threw(message: string)

  /** What happened to one post. */
  datatype Action = Created | Updated | Failed(message: string)

  function UpdateFailed(slug: string, m: string): string { "Failed to update post " + slug + ": " + m }
  function CreateFailed(slug: string, m: string): string { "Failed to create post " + slug + ": " + m }
  function ProcessFailed(slug: string, m: string): string { "Error processing post " + slug + ": " + m }

  /** One post against the table: a post whose key exists is updated, any other inserted; a
      failed write leaves the table as it was. */
  function WritePost(table: map<string, SyncRow>, post: Post, now: int, call: DbCall): (r: (Action, map<string, SyncRow>))
    ensures PageKey(post.slug) in table ==> !r.0.Created?
    ensures PageKey(post.slug) !in table ==> !r.0.Updated?
    ensures r.0.Failed? <==> !call.Done?
    ensures r.0.Failed? ==> r.1 == table
    ensures !r.0.Failed? ==> r.1 == table[PageKey(post.slug) := SyncRowOf(post, now)]
  {
    var key := PageKey(post.slug);
    var exists_ := key in table;
    match call
    case Done => (if exists_ then Updated else Created, table[key := SyncRowOf(post, now)])
    case DbError(m) => (Failed(if exists_ then UpdateFailed(post.slug, m) else CreateFailed(post.slug, m)), table)
    case Threw(m) => (Failed(ProcessFailed(post.slug, m)), table)
  }

  /** The posts from index `i` on, written in order; `outcome(k)` is what post `k`'s write
      answers. */
  function SyncFrom(posts: seq<Post>, i: nat, table: map<string, SyncRow>, now: int, outcome: nat -> DbCall)
    : (r: (seq<Action>, map<string, SyncRow>))
    requires i <= |posts|
    ensures |r.0| == |posts| - i
    decreases |posts| - i
  {
    if i == |posts| then ([], table)
    else
      var w := WritePost(table, posts[i], now, outcome(i));
      var rest := SyncFrom(posts, i + 1, w.1, now, outcome);
      ([w.0] + rest.0, rest.1)
  }

  function CreatedCount(actions: seq<Action>): nat {
    if actions == [] then 0 else (if actions[0].Created? then 1 else 0) + CreatedCount(actions[1..])
  }

  function UpdatedCount(actions: seq<Action>): nat {
    if actions == [] then 0 else (if actions[0].Updated? then 1 else 0) + UpdatedCount(actions[1..])
  }

  function ErrorsOf(actions: seq<Action>): seq<string> {
    if actions == [] then []
    else (if actions[0].Failed? then [actions[0].message] else []) + ErrorsOf(actions[1..])
  }

  lemma {:induction false} CreatedCountAppend(a: seq<Action>, b: seq<Action>)
    ensures CreatedCount(a + b) == CreatedCount(a) + CreatedCount(b)
  {
    if a == [] {
      assert a + b == b;
    } else {
      assert (a + b)[0] == a[0] && (a + b)[1..] == a[1..] + b;
      CreatedCountAppend(a[1..], b);
    }
  }

  lemma {:induction false} UpdatedCountAppend(a: seq<Action>, b: seq<Action>)
    ensures UpdatedCount(a + b) == UpdatedCount(a) + UpdatedCount(b)
  {
    if a == [] {
      assert a + b == b;
    } else {
      assert (a + b)[0] == a[0] && (a + b)[1..] == a[1..] + b;
      UpdatedCountAppend(a[1..], b);
    }
  }

  lemma {:induction false} ErrorsOfAppend(a: seq<Action>, b: seq<Action>)
    ensures ErrorsOf(a + b) == ErrorsOf(a) + ErrorsOf(b)
  {
    if a == [] {
      assert a + b == b;
    } else {
      assert (a + b)[0] == a[0] && (a + b)[1..] == a[1..] + b;
      ErrorsOfAppend(a[1..], b);
      if a[0].Failed? {
        assert ErrorsOf(a + b) == [a[0].message] + ErrorsOf(a[1..] + b);
        assert ErrorsOf(a) == [a[0].message] + ErrorsOf(a[1..]);
      } else {
        assert ErrorsOf(a + b) == ErrorsOf(a[1..] + b);
        assert ErrorsOf(a) == ErrorsOf(a[1..]);
      }
    }
  }

  /** Running from `i` is writing post `i`, then running from `i + 1` on the new table. */
  lemma SyncStep(posts: seq<Post>, i: nat, table: map<string, SyncRow>, now: int, outcome: nat -> DbCall,
                 done: seq<Action>)
    requires i < |posts|
    ensures var w := WritePost(table, posts[i], now, outcome(i));
            var rest := SyncFrom(posts, i + 1, w.1, now, outcome);
            && done + SyncFrom(posts, i, table, now, outcome).0 == (done + [w.0]) + rest.0
            && SyncFrom(posts, i, table, now, outcome).1 == rest.1
  {
    var w := WritePost(table, posts[i], now, outcome(i));
    var rest := SyncFrom(posts, i + 1, w.1, now, outcome);
    assert done + ([w.0] + rest.0) == (done + [w.0]) + rest.0;
  }

  /** One more action adds one to its own count, or its message to the errors. */
  lemma TallyOne(done: seq<Action>, action: Action)
    ensures CreatedCount(done + [action]) == CreatedCount(done) + (if action.Created? then 1 else 0)
    ensures UpdatedCount(done + [action]) == UpdatedCount(done) + (if action.Updated? then 1 else 0)
    ensures ErrorsOf(done + [action]) == ErrorsOf(done) + (if action.Failed? then [action.message] else [])
  {
    CreatedCountAppend(done, [action]);
    UpdatedCountAppend(done, [action]);
    ErrorsOfAppend(done, [action]);
    assert [action][1..] == [];
  }

  /** Every action is exactly one of created, updated or failed. */
  lemma {:induction false} CountsPartition(actions: seq<Action>)
    ensures CreatedCount(actions) + UpdatedCount(actions) + |ErrorsOf(actions)| == |actions|
  {
    if actions != [] {
      CountsPartition(actions[1..]);
    }
  }

  /** Every post contributes exactly one of a creation, an update or an error. */
  lemma SyncCountsAddUp(posts: seq<Post>, i: nat, table: map<string, SyncRow>, now: int, outcome: nat -> DbCall)
    requires i <= |posts|
    ensures var r := SyncFrom(posts, i, table, now, outcome);
      CreatedCount(r.0) + UpdatedCount(r.0) + |ErrorsOf(r.0)| == |posts| - i
  {
    CountsPartition(SyncFrom(posts, i, table, now, outcome).0);
  }

  /** A run has no error exactly when every write succeeded. */
  lemma {:induction false} SyncErrorFree(posts: seq<Post>, i: nat, table: map<string, SyncRow>, now: int, outcome: nat -> DbCall)
    requires i <= |posts|
    ensures ErrorsOf(SyncFrom(posts, i, table, now, outcome).0) == [] <==> forall k :: i <= k < |posts| ==> outcome(k).Done?
    decreases |posts| - i
  {
    if i < |posts| {
      var w := WritePost(table, posts[i], now, outcome(i));
      SyncErrorFree(posts, i + 1, w.1, now, outcome);
      var r := SyncFrom(posts, i, table, now, outcome);
      var rest := SyncFrom(posts, i + 1, w.1, now, outcome);
      assert r.0[0] == w.0 && r.0[1..] == rest.0;
    }
  }

  /** The table gains exactly the keys of the posts written successfully. */
  lemma {:induction false} SyncKeys(posts: seq<Post>, i: nat, table: map<string, SyncRow>, now: int, outcome: nat -> DbCall)
    requires i <= |posts|
    ensures SyncFrom(posts, i, table, now, outcome).1.Keys
            == table.Keys + set k | i <= k < |posts| && outcome(k).Done? :: PageKey(posts[k].slug)
    decreases |posts| - i
  {
    if i < |posts| {
      var w := WritePost(table, posts[i], now, outcome(i));
      SyncKeys(posts, i + 1, w.1, now, outcome);
      var later := set k | i + 1 <= k < |posts| && outcome(k).Done? :: PageKey(posts[k].slug);
      var all := set k | i <= k < |posts| && outcome(k).Done? :: PageKey(posts[k].slug);
      if outcome(i).Done? {
        assert all == later + {PageKey(posts[i].slug)};
      } else {
        assert all == later;
      }
    }
  }

  /** The log row a run writes. */
  datatype SyncLog = SyncLog(status: string, startedAt: int, completedAt: Option<int>,
                             processed: nat, created: nat, updated: nat, errorMessage: Option<string>)

  /** What `syncFileBlogs` returns. */
  datatype SyncResult = SyncResult(success: bool, processed: nat, created: nat, updated: nat,
                                   errors: Option<seq<string>>)

  const Completed := "completed"
  const CompletedWithErrors := "completed_with_errors"
  const NoClientError := "Supabase admin client not configured"
  const ErrorSeparator := "; "

  /** The result a run returns for its actions. */
  function ResultOf(actions: seq<Action>, processed: nat): (r: SyncResult)
    ensures r.success <==> ErrorsOf(actions) == []
    ensures r.errors.Some? <==> !r.success
    ensures r.errors.Some? ==> r.errors.value == ErrorsOf(actions)
    ensures r.processed == processed && r.created == CreatedCount(actions) && r.updated == UpdatedCount(actions)
  {
    var errors := ErrorsOf(actions);
    SyncResult(errors == [], processed, CreatedCount(actions), UpdatedCount(actions),
               if errors == [] then None else Some(errors))
  }

  /** The log row a run writes for its actions: the status says whether there were errors, and
      the errors are joined with "; ". */
  function LogOf(actions: seq<Action>, processed: nat, start: int, finish: int): (r: SyncLog)
    ensures var result := ResultOf(actions, processed);
      && (r.status == Completed <==> result.success)
      && (r.status == CompletedWithErrors <==> !result.success)
      && (r.errorMessage.Some? <==> result.errors.Some?)
      && (r.errorMessage.Some? ==> r.errorMessage.value == Join(result.errors.value, ErrorSeparator))
      && r.processed == result.processed && r.created == result.created && r.updated == result.updated
      && r.startedAt == start && r.completedAt == Some(finish)
  {
    assert Completed != CompletedWithErrors by { assert |Completed| != |CompletedWithErrors|; }
    var errors := ErrorsOf(actions);
    SyncLog(if errors == [] then Completed else CompletedWithErrors, start, Some(finish), processed,
            CreatedCount(actions), UpdatedCount(actions),
            if errors == [] then None else Some(Join(errors, ErrorSeparator)))
  }

  /** A run over all file posts reports every post once, and succeeds exactly when every write
      succeeded. */
  lemma RunReport(posts: seq<Post>, table: map<string, SyncRow>, now: int, outcome: nat -> DbCall)
    ensures var result := ResultOf(SyncFrom(posts, 0, table, now, outcome).0, |posts|);
      && result.created + result.updated + (if result.errors.Some? then |result.errors.value| else 0) == result.processed
      && result.processed == |posts|
      && (result.success <==> forall k :: 0 <= k < |posts| ==> outcome(k).Done?)
      && (result.success <==> result.errors.None?)
  {
    SyncCountsAddUp(posts, 0, table, now, outcome);
    SyncErrorFree(posts, 0, table, now, outcome);
  }

  /** The database the sync writes: the `blog_posts` rows by key, and the `blog_sync_log`
      rows. */
  class BlogDatabase {
    var posts: map<string, SyncRow>
    var syncLog: seq<SyncLog>

    constructor (rows: map<string, SyncRow>, log: seq<SyncLog>)
      ensures posts == rows && syncLog == log
    {
      posts := rows;
      syncLog := log;
    }

    /** The lookup and the update or insert for one post. */
    method WriteOne(post: Post, now: int, call: DbCall) returns (action: Action)
      modifies this
      ensures (action, posts) == WritePost(old(posts), post, now, call)
      ensures syncLog == old(syncLog)
    {
      var key := PageKey(post.slug);
      var existing := key in posts;
      match call {
        case Done =>
          posts := posts[key := SyncRowOf(post, now)];
          action := if existing then Updated else Created;
        case DbError(m) =>
          action := Failed(if existing then UpdateFailed(post.slug, m) else CreateFailed(post.slug, m));
        case Threw(m) =>
          action := Failed(ProcessFailed(post.slug, m));
      }
    }

    /** The loop of `syncFileBlogs`: each post in turn is written, and counted as created,
        updated or failed. */
    method WriteAll(filePosts: seq<Post>, now: int, outcome: nat -> DbCall)
      returns (created: nat, updated: nat, errors: seq<string>)
      modifies this
      ensures var r := SyncFrom(filePosts, 0, old(posts), now, outcome);
        posts == r.1 && created == CreatedCount(r.0) && updated == UpdatedCount(r.0) && errors == ErrorsOf(r.0)
      ensures syncLog == old(syncLog)
    {
      created, updated, errors := 0, 0, [];
      ghost var all := SyncFrom(filePosts, 0, posts, now, outcome);
      ghost var done: seq<Action> := [];
      var i := 0;
      while i < |filePosts|
        invariant 0 <= i <= |filePosts|
        invariant all.0 == done + SyncFrom(filePosts, i, posts, now, outcome).0
        invariant all.1 == SyncFrom(filePosts, i, posts, now, outcome).1
        invariant created == CreatedCount(done) && updated == UpdatedCount(done) && errors == ErrorsOf(done)
        invariant syncLog == old(syncLog)
      {
        ghost var before := posts;
        var action := WriteOne(filePosts[i], now, outcome(i));
        match action {
          case Created => created := created + 1;
          case Updated => updated := updated + 1;
          case Failed(m) => errors := errors + [m];
        }
        SyncStep(filePosts, i, before, now, outcome, done);
        TallyOne(done, action);
        done := done + [action];
        i := i + 1;
      }
      assert done == all.0;
    }

    /** `syncFileBlogs` between `start` and `finish` (ms) with the client present: every file
        post (no limit) is written in listing order, and the result and the new log row count
        the creations, updates and errors. */
    method SyncFileBlogs(directory: Option<seq<DirEntry>>, start: int, finish: int, outcome: nat -> DbCall)
      returns (result: SyncResult)
      modifies this
      ensures var filePosts := FileBlogPostsOf(directory, None);
              var r := SyncFrom(filePosts, 0, old(posts), start, outcome);
        && posts == r.1
        && result == ResultOf(r.0, |filePosts|)
        && syncLog == old(syncLog) + [LogOf(r.0, |filePosts|, start, finish)]
    {
      var filePosts := GetFileBlogPosts(directory, None);
      var created, updated, errors := WriteAll(filePosts, start, outcome);
      var status := if |errors| > 0 then CompletedWithErrors else Completed;
      var message := if |errors| > 0 then Some(Join(errors, ErrorSeparator)) else None;
      syncLog := syncLog + [SyncLog(status, start, Some(finish), |filePosts|, created, updated, message)];
      result := SyncResult(|errors| == 0, |filePosts|, created, updated, if |errors| > 0 then Some(errors) else None);
    }
  }

  /** `syncFileBlogs` without a client: nothing is written and the run fails with one
      error and zero counts. Its "failed" log row is inserted through the missing client, so
      no row is written either. */
  function SyncWithoutClient(): (result: SyncResult)
    ensures !result.success && result.processed == 0 && result.created == 0 && result.updated == 0
    ensures result.errors.Some? && |result.errors.value| == 1
  {
    SyncResult(false, 0, 0, 0, Some([NoClientError]))
  }

  // ---------------------------------------------------------------- last status

  datatype QueryError = QueryError(code: string, message: string)

  /** What the query for the latest file sync gave: its error and row, or an exception. */
  datatype LastSyncQuery = Answered(error: Option<QueryError>, data: Option<SyncLog>) | QueryThrew(message: string)

  datatype LastSyncStatus = LastSyncStatus(success: bool, lastSync: Option<int>, errors: Option<seq<string>>)

  const NoRowsCode := "PGRST116"
  const NotConfigured := "Supabase not configured"

  /** `getLastSyncStatus`: without a client, or on a query error other than "no rows", a
      failure; with no row, success and no last sync; otherwise success iff the run completed
      without errors, and the last sync is its completion time, else its start. */
  function GetLastSyncStatus(clientConfigured: bool, query: LastSyncQuery): (r: LastSyncStatus)
    ensures !clientConfigured ==> r == LastSyncStatus(false, None, Some([NotConfigured]))
    ensures (clientConfigured && query.Answered? && query.error.Some? && query.error.value.code != NoRowsCode)
              ==> r == LastSyncStatus(false, None, Some([query.error.value.message]))
    ensures (clientConfigured && query.Answered? && (query.error.None? || query.error.value.code == NoRowsCode)
             && query.data.None?) ==> r == LastSyncStatus(true, None, None)
    ensures (clientConfigured && query.Answered? && (query.error.None? || query.error.value.code == NoRowsCode)
             && query.data.Some?) ==>
                && (r.success <==> query.data.value.status == Completed)
                && r.lastSync == Some(query.data.value.completedAt.GetOr(query.data.value.startedAt))
                && (r.errors.Some? <==> Truthy(query.data.value.errorMessage))
    ensures clientConfigured && query.QueryThrew? ==> !r.success && r.lastSync.None?
  {
    if !clientConfigured then LastSyncStatus(false, None, Some([NotConfigured]))
    else match query
      case QueryThrew(m) => LastSyncStatus(false, None, Some([m]))
      case Answered(error, data) =>
        if error.Some? && error.value.code != NoRowsCode then LastSyncStatus(false, None, Some([error.value.message]))
        else if data.None? then LastSyncStatus(true, None, None)
        else
          var row := data.value;
          LastSyncStatus(row.status == Completed,
                         Some(if row.completedAt.Some? then row.completedAt.value else row.startedAt),
                         if Truthy(row.errorMessage) then Some([row.errorMessage.value]) else None)
  }

  /** Read back, the log row of a run reports success exactly when the run had no errors, and
      the run's completion time as the last sync. */
  lemma StatusReflectsRun(actions: seq<Action>, processed: nat, start: int, finish: int)
    ensures var r := GetLastSyncStatus(true, Answered(None, Some(LogOf(actions, processed, start, finish))));
            (r.success <==> ResultOf(actions, processed).success) && r.lastSync == Some(finish)
  {
    assert |Completed| != |CompletedWithErrors|;
  }
}
