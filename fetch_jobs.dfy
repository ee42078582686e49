/** `application/db_apis/fetch_jobs.py`: fetching public job posts page by
    page, keeping those the user has not had scored yet, sending them to the
    language model in batches and building one score update per matched
    job. The job server and the model are outside the model: the server is
    the sequence of its page responses (page `p` is element `p - 1`; a page
    past the end comes back without data), the model is a function from a
    batch to the matched jobs it reports. */
module FetchJobs {
  import opened Wrappers
  import opened Json
  import opened Slicing

  /** A public job post: its `_id` and the rest of its fields. */
  datatype JobPost = JobPost(id: string, fields: Json)

  /** An entry of `userJobs`: a job already scored for the user. */
  datatype UserJob = UserJob(jobId: string)

  /** The `data` object of a page response; `None` for an absent key. */
  datatype PageData = PageData(jobPosts: Option<seq<JobPost>>, userJobs: Option<seq<UserJob>>, totalPages: Option<int>)

  /** A page request: it fails (`RequestException`), or returns a body
      with or without `data`. */
  datatype Response = RequestFailed | Fetched(data: Option<PageData>)

  /** One entry of the model's `matched_jobs`. */
  datatype MatchEntry = MatchEntry(jobId: string, matchScore: Option<real>)

  /** The body of one `updateScore` request. */
  datatype Payload = Payload(user: string, jobId: string, jobScore: real)

  const DefaultBatchSize: nat := 5

  /** The page the server returns for page number `page`. */
  function FetchPage(server: seq<Response>, page: int): (r: Response)
    ensures 1 <= page <= |server| ==> r == server[page - 1]
    ensures !(1 <= page <= |server|) ==> r == Fetched(None)
  {
    if 1 <= page <= |server| then server[page - 1] else Fetched(None)
  }

  function PageOf(r: Response): PageData {
    if r.Fetched? && r.data.Some? then r.data.value else PageData(None, None, None)
  }

  /** `data.get("data", {}).get("jobPosts", [])`. */
  function Posts(r: Response): seq<JobPost> {
    PageOf(r).jobPosts.GetOr([])
  }

  function UserJobs(r: Response): seq<UserJob> {
    PageOf(r).userJobs.GetOr([])
  }

  /** `processed_ids`. */
  function ProcessedIds(userJobs: seq<UserJob>): set<string> {
    set j | j in userJobs :: j.jobId
  }

  /** The posts whose `_id` is not among `processed`, in order. */
  function Unprocessed(posts: seq<JobPost>, processed: set<string>): seq<JobPost> {
    if posts == [] then []
    else
      var last := posts[|posts| - 1];
      Unprocessed(posts[..|posts| - 1], processed) + (if last.id in processed then [] else [last])
  }

  /** `get_unprocessed_jobs` on the server's response: the unprocessed
      posts and `totalPages` (1 when absent); `([], 1)` when the request
      fails. */
  function GetUnprocessedJobs(r: Response): (out: (seq<JobPost>, int))
    ensures r.RequestFailed? ==> out == ([], 1)
    ensures r.Fetched? ==> out.1 == PageOf(r).totalPages.GetOr(1)
    ensures |out.0| <= |Posts(r)|
  {
    UnprocessedMembers(Posts(r), ProcessedIds(UserJobs(r)));
    if r.RequestFailed? then ([], 1)
    else (Unprocessed(Posts(r), ProcessedIds(UserJobs(r))), PageOf(r).totalPages.GetOr(1))
  }

  /** The unprocessed posts are exactly the posts with an unprocessed id. */
  lemma {:induction false} UnprocessedMembers(posts: seq<JobPost>, processed: set<string>)
    ensures forall j :: j in Unprocessed(posts, processed) <==> j in posts && j.id !in processed
    ensures |Unprocessed(posts, processed)| <= |posts|
  {
    if posts != [] {
      var init := posts[..|posts| - 1];
      UnprocessedMembers(init, processed);
      assert posts == init + [posts[|posts| - 1]];
    }
  }

  /** The jobs `get_unprocessed_jobs` returns are exactly the page's posts
      whose `_id` is not the `jobId` of any of the page's `userJobs`. */
  lemma UnprocessedJobsSpec(r: Response)
    ensures forall j :: j in GetUnprocessedJobs(r).0 <==>
      j in Posts(r) && !(exists u :: u in UserJobs(r) && u.jobId == j.id) && !r.RequestFailed?
  {
    UnprocessedMembers(Posts(r), ProcessedIds(UserJobs(r)));
  }

  /** Filtering keeps the order: it distributes over concatenation. */
  lemma {:induction false} UnprocessedAppend(a: seq<JobPost>, b: seq<JobPost>, processed: set<string>)
    ensures Unprocessed(a + b, processed) == Unprocessed(a, processed) + Unprocessed(b, processed)
    decreases |b|
  {
    if b == [] {
      assert a + b == a;
    } else {
      var init := b[..|b| - 1];
      UnprocessedAppend(a, init, processed);
      assert (a + b)[..|a + b| - 1] == a + init;
    }
  }

  // ---------------------------------------------------------------------
  // Paging.

  /** The unprocessed posts of page `page` and the page count it reports. */
  function PageJobs(server: seq<Response>, page: int): (out: (seq<JobPost>, int))
    ensures !(1 <= page <= |server|) ==> out == ([], 1)
  {
    GetUnprocessedJobs(FetchPage(server, page))
  }

  /** The job lists `process_jobs_in_batches` works through, from page
      `page` on, as written: it stops at the first page without unprocessed
      posts, or after the page that reaches the reported page count. */
  function PagesAsWritten(server: seq<Response>, page: int): seq<seq<JobPost>>
    requires page >= 1
    decreases |server| + 1 - page
  {
    var (jobs, total) := PageJobs(server, page);
    if jobs == [] then []
    else if page >= total then [jobs]
    else [jobs] + PagesAsWritten(server, page + 1)
  }

  /** The job lists the loop would work through if it went on past a page
      whose posts were all processed already: every page up to the reported
      page count, empty ones skipped. */
  function PagesCorrected(server: seq<Response>, page: int): seq<seq<JobPost>>
    requires page >= 1
    decreases |server| + 1 - page
  {
    var (jobs, total) := PageJobs(server, page);
    var here := if jobs == [] then [] else [jobs];
    if page >= total then here
    else here + PagesCorrected(server, page + 1)
  }

  /** One step of the paging as written. */
  lemma AsWrittenStep(server: seq<Response>, page: int)
    requires page >= 1
    ensures var jobs := PageJobs(server, page).0;
      && (jobs == [] ==> PagesAsWritten(server, page) == [])
      && (jobs != [] && page >= PageJobs(server, page).1 ==> PagesAsWritten(server, page) == [jobs])
      && (jobs != [] && page < PageJobs(server, page).1 ==>
            page <= |server| && PagesAsWritten(server, page) == [jobs] + PagesAsWritten(server, page + 1))
  {
  }

  /** Each list visited as written is page `p`'s unprocessed posts, for
      consecutive pages from `page`, and none is empty. */
  lemma {:induction false} AsWrittenListsArePages(server: seq<Response>, page: int)
    requires page >= 1
    ensures var ps := PagesAsWritten(server, page);
      forall p :: page <= p < page + |ps| ==> ps[p - page] == PageJobs(server, p).0 != []
    decreases |server| + 1 - page
  {
    AsWrittenStep(server, page);
    if PageJobs(server, page).0 != [] && page < PageJobs(server, page).1 {
      AsWrittenListsArePages(server, page + 1);
    }
  }

  /** Every page visited before the last is below its reported page count. */
  lemma {:induction false} AsWrittenBelowTotal(server: seq<Response>, page: int)
    requires page >= 1
    ensures var ps := PagesAsWritten(server, page);
      forall p :: page <= p < page + |ps| - 1 ==> p < PageJobs(server, p).1
    decreases |server| + 1 - page
  {
    AsWrittenStep(server, page);
    if PageJobs(server, page).0 != [] && page < PageJobs(server, page).1 {
      AsWrittenBelowTotal(server, page + 1);
    }
  }

  /** The run ends at a page that reached its page count, or before a page
      without unprocessed posts. */
  lemma {:induction false} AsWrittenEnds(server: seq<Response>, page: int)
    requires page >= 1
    ensures var ps := PagesAsWritten(server, page);
      page + |ps| - 1 >= PageJobs(server, page + |ps| - 1).1 || PageJobs(server, page + |ps|).0 == []
    decreases |server| + 1 - page
  {
    AsWrittenStep(server, page);
    if PageJobs(server, page).0 != [] && page < PageJobs(server, page).1 {
      AsWrittenEnds(server, page + 1);
    }
  }

  /** Pages visited as written are consecutive from `page`: the list for
      page `p` is its unprocessed posts, none is empty, every page before
      the last one visited is below its reported page count, and the run
      ends with a page that reached its page count or is followed by a
      page without unprocessed posts. */
  lemma AsWrittenVisitsConsecutivePages(server: seq<Response>, page: int)
    requires page >= 1
    ensures var ps := PagesAsWritten(server, page);
      && (forall p :: page <= p < page + |ps| ==> ps[p - page] == PageJobs(server, p).0 != [])
      && (forall p :: page <= p < page + |ps| - 1 ==> p < PageJobs(server, p).1)
      && (page + |ps| - 1 >= PageJobs(server, page + |ps| - 1).1 || PageJobs(server, page + |ps|).0 == [])
  {
    AsWrittenListsArePages(server, page);
    AsWrittenBelowTotal(server, page);
    AsWrittenEnds(server, page);
  }

  /** The server answers every page, and every page reports the true page
      count. */
  predicate WellBehaved(server: seq<Response>) {
    forall i :: 0 <= i < |server| ==>
      server[i].Fetched? && server[i].data.Some? && server[i].data.value.totalPages == Some(|server|)
  }

  /** Every unprocessed post of pages `page` to the last, in page order. */
  function AllUnprocessed(server: seq<Response>, page: int): seq<JobPost>
    requires page >= 1
    decreases |server| + 1 - page
  {
    if page > |server| then [] else PageJobs(server, page).0 + AllUnprocessed(server, page + 1)
  }

  /** With the paging corrected, a well-behaved server has every one of its
      unprocessed posts scored, in page order. */
  lemma {:induction false} CorrectedReachesEveryPage(server: seq<Response>, page: int)
    requires page >= 1 && WellBehaved(server)
    ensures Flatten(PagesCorrected(server, page)) == AllUnprocessed(server, page)
    decreases |server| + 1 - page
  {
    var (jobs, total) := PageJobs(server, page);
    var here := if jobs == [] then [] else [jobs];
    assert Flatten(here) == jobs by {
      if jobs != [] {
        assert Flatten([jobs]) == jobs + Flatten([]);
      }
    }
    if page <= |server| {
      assert total == |server|;
      if page < total {
        CorrectedReachesEveryPage(server, page + 1);
        FlattenAppend(here, PagesCorrected(server, page + 1));
      } else {
        assert AllUnprocessed(server, page + 1) == [];
      }
    }
  }

  /** As written, a first page whose posts were all scored already ends the
      run, though page 2 still holds an unscored post, which the corrected
      paging reaches. */
  lemma ProcessedPageStopsPaging()
    ensures var scored := JobPost("a", JNull);
      var unscored := JobPost("b", JNull);
      var server := [Fetched(Some(PageData(Some([scored]), Some([UserJob("a")]), Some(2)))),
                     Fetched(Some(PageData(Some([unscored]), Some([]), Some(2))))];
      && WellBehaved(server)
      && AllUnprocessed(server, 1) == [unscored]
      && PagesAsWritten(server, 1) == []
      && PagesCorrected(server, 1) == [[unscored]]
  {
    var scored := JobPost("a", JNull);
    var unscored := JobPost("b", JNull);
    var server := [Fetched(Some(PageData(Some([scored]), Some([UserJob("a")]), Some(2)))),
                   Fetched(Some(PageData(Some([unscored]), Some([]), Some(2))))];
    assert ProcessedIds([UserJob("a")]) == {"a"};
    assert Unprocessed([scored], {"a"}) == Unprocessed([], {"a"}) + [];
    assert PageJobs(server, 1) == ([], 2);
    assert Unprocessed([unscored], {}) == Unprocessed([], {}) + [unscored];
    assert ProcessedIds([]) == {};
    assert Posts(server[1]) == [unscored] && UserJobs(server[1]) == [];
    assert [unscored][..0] == [];
    assert Unprocessed([unscored], {}) == [unscored];
    assert GetUnprocessedJobs(server[1]) == ([unscored], 2);
    assert PageJobs(server, 2) == ([unscored], 2);
    assert AllUnprocessed(server, 3) == [];
    assert PagesCorrected(server, 2) == [[unscored]];
  }

  // ---------------------------------------------------------------------
  // Batches and score updates.

  /** One update per matched job, the score 0 when the model gave none. */
  function BatchPayloads(user: string, entries: seq<MatchEntry>): (ps: seq<Payload>)
    ensures |ps| == |entries|
    ensures forall i :: 0 <= i < |entries| ==>
      ps[i].user == user && ps[i].jobId == entries[i].jobId
      && ps[i].jobScore == entries[i].matchScore.GetOr(0.0)
  {
    seq(|entries|, i requires 0 <= i < |entries| => Payload(user, entries[i].jobId, entries[i].matchScore.GetOr(0.0)))
  }

  /** The updates of a run of batches, batch by batch. */
  function PayloadsOf(user: string, batches: seq<seq<JobPost>>, matcher: seq<JobPost> -> seq<MatchEntry>): seq<Payload> {
    if batches == [] then []
    else PayloadsOf(user, batches[..|batches| - 1], matcher) + BatchPayloads(user, matcher(batches[|batches| - 1]))
  }

  /** The batches of a run of pages, page by page. */
  function BatchesOf(pages: seq<seq<JobPost>>, batchSize: nat): seq<seq<JobPost>>
    requires batchSize >= 1
  {
    if pages == [] then []
    else BatchesOf(pages[..|pages| - 1], batchSize) + Groups(pages[|pages| - 1], batchSize)
  }

  lemma BatchesOfSnoc(pages: seq<seq<JobPost>>, jobs: seq<JobPost>, batchSize: nat)
    requires batchSize >= 1
    ensures BatchesOf(pages + [jobs], batchSize) == BatchesOf(pages, batchSize) + Groups(jobs, batchSize)
  {
    assert (pages + [jobs])[..|pages|] == pages;
  }

  lemma PayloadsOfSnoc(user: string, batches: seq<seq<JobPost>>, batch: seq<JobPost>, matcher: seq<JobPost> -> seq<MatchEntry>)
    ensures PayloadsOf(user, batches + [batch], matcher) == PayloadsOf(user, batches, matcher) + BatchPayloads(user, matcher(batch))
  {
    assert (batches + [batch])[..|batches|] == batches;
  }

  lemma {:induction false} PayloadsOfAppend(user: string, a: seq<seq<JobPost>>, b: seq<seq<JobPost>>, matcher: seq<JobPost> -> seq<MatchEntry>)
    ensures PayloadsOf(user, a + b, matcher) == PayloadsOf(user, a, matcher) + PayloadsOf(user, b, matcher)
    decreases |b|
  {
    if b == [] {
      assert a + b == a;
    } else {
      var init, last := b[..|b| - 1], b[|b| - 1];
      assert b == init + [last];
      assert a + b == (a + init) + [last];
      PayloadsOfAppend(user, a, init, matcher);
      PayloadsOfSnoc(user, a + init, last, matcher);
      PayloadsOfSnoc(user, init, last, matcher);
    }
  }

  /** Batches of one page's jobs, in order, never more than `batchSize`
      jobs each and all the page's jobs between them. */
  lemma BatchesCoverJobs(jobs: seq<JobPost>, batchSize: nat)
    requires batchSize >= 1
    ensures forall i :: 0 <= i < |Groups(jobs, batchSize)| ==> 1 <= |Groups(jobs, batchSize)[i]| <= batchSize
    ensures Flatten(Groups(jobs, batchSize)) == jobs
  {
    GroupsSizes(jobs, batchSize);
  }

  /** Every job of every visited page is sent in exactly one batch, in
      page order. */
  lemma {:induction false} BatchesCoverPages(pages: seq<seq<JobPost>>, batchSize: nat)
    requires batchSize >= 1
    ensures Flatten(BatchesOf(pages, batchSize)) == Flatten(pages)
  {
    if pages != [] {
      var init := pages[..|pages| - 1];
      var last := pages[|pages| - 1];
      assert pages == init + [last];
      BatchesOfSnoc(init, last, batchSize);
      BatchesCoverPages(init, batchSize);
      GroupsSizes(last, batchSize);
      FlattenAppend(BatchesOf(init, batchSize), Groups(last, batchSize));
      FlattenAppend(init, [last]);
      assert Flatten([last]) == last + Flatten([]);
    }
  }

  /** The updates for one batch: the `for job in response["matched_jobs"]`
      loop. */
  method ScoreBatch(user: string, batch: seq<JobPost>, matcher: seq<JobPost> -> seq<MatchEntry>) returns (payloads: seq<Payload>)
    ensures payloads == BatchPayloads(user, matcher(batch))
  {
    var entries := matcher(batch);
    payloads := [];
    var j := 0;
    while j < |entries|
      invariant 0 <= j <= |entries|
      invariant payloads == BatchPayloads(user, entries[..j])
    {
      var score := if entries[j].matchScore.Some? then entries[j].matchScore.value else 0.0;
      payloads := payloads + [Payload(user, entries[j].jobId, score)];
      assert entries[..j + 1] == entries[..j] + [entries[j]];
      j := j + 1;
    }
    assert entries[..|entries|] == entries;
  }

  /** One page's jobs: `for i in range(0, len(unprocessed_jobs), batch_size)`
      sends `unprocessed_jobs[i:i + batch_size]`. */
  method ScorePage(user: string, jobs: seq<JobPost>, batchSize: nat, matcher: seq<JobPost> -> seq<MatchEntry>)
    returns (batches: seq<seq<JobPost>>, payloads: seq<Payload>)
    requires batchSize >= 1
    ensures batches == Groups(jobs, batchSize)
    ensures payloads == PayloadsOf(user, batches, matcher)
  {
    batches := [];
    payloads := [];
    var i := 0;
    while i < |jobs|
      invariant WholeChunks(i, batchSize)
      invariant batches == Groups(jobs[..Min(i, |jobs|)], batchSize)
      invariant payloads == PayloadsOf(user, batches, matcher)
      decreases |jobs| - i
    {
      var end := Min(i + batchSize, |jobs|);
      var batch := jobs[i..end];
      var scored := ScoreBatch(user, batch, matcher);
      assert jobs[..i] + batch == jobs[..end];
      GroupsSnoc(jobs[..i], batch, batchSize);
      batches := batches + [batch];
      assert batches[..|batches| - 1] == Groups(jobs[..i], batchSize);
      payloads := payloads + scored;
      WholeChunksStep(i, batchSize);
      i := i + batchSize;
    }
    assert jobs[..|jobs|] == jobs;
  }

  /** The paging loop's invariant at a page without unprocessed posts: the
      pages visited are all the pages the run visits. */
  lemma AsWrittenStops(server: seq<Response>, page: int, visited: seq<seq<JobPost>>)
    requires page >= 1 && PageJobs(server, page).0 == []
    requires visited + PagesAsWritten(server, page) == PagesAsWritten(server, 1)
    ensures visited == PagesAsWritten(server, 1)
  {
    AsWrittenStep(server, page);
    assert visited + [] == visited;
  }

  /** The paging loop's invariant after visiting a page with unprocessed
      posts: the run ends here at the reported last page, or goes on with
      the next page. */
  lemma AsWrittenAdvances(server: seq<Response>, page: int, visited: seq<seq<JobPost>>)
    requires page >= 1 && PageJobs(server, page).0 != []
    requires visited + PagesAsWritten(server, page) == PagesAsWritten(server, 1)
    ensures var (jobs, total) := PageJobs(server, page);
      && (page >= total ==> visited + [jobs] == PagesAsWritten(server, 1))
      && (page < total ==> page <= |server| && (visited + [jobs]) + PagesAsWritten(server, page + 1) == PagesAsWritten(server, 1))
  {
    AsWrittenStep(server, page);
    var jobs := PageJobs(server, page).0;
    if page < PageJobs(server, page).1 {
      assert (visited + [jobs]) + PagesAsWritten(server, page + 1) == visited + ([jobs] + PagesAsWritten(server, page + 1));
    }
  }

  /** `process_jobs_in_batches`: page 1, 2, ... until a page without
      unprocessed posts or the reported last page; each page's posts sent
      in batches, one update per matched job. The run's batches and
      updates are those of the pages `PagesAsWritten` lists. */
  method ProcessJobsInBatches(user: string, server: seq<Response>, batchSize: nat, matcher: seq<JobPost> -> seq<MatchEntry>)
    returns (batches: seq<seq<JobPost>>, payloads: seq<Payload>)
    requires batchSize >= 1
    ensures batches == BatchesOf(PagesAsWritten(server, 1), batchSize)
    ensures payloads == PayloadsOf(user, batches, matcher)
  {
    var page := 1;
    ghost var visited: seq<seq<JobPost>> := [];
    batches := [];
    payloads := [];
    while true
      invariant page >= 1
      invariant visited + PagesAsWritten(server, page) == PagesAsWritten(server, 1)
      invariant batches == BatchesOf(visited, batchSize)
      invariant payloads == PayloadsOf(user, batches, matcher)
      decreases |server| + 1 - page
    {
      var fetched := PageJobs(server, page);
      var jobs, total := fetched.0, fetched.1;
      if jobs == [] {
        AsWrittenStops(server, page, visited);
        break;
      }
      AsWrittenAdvances(server, page, visited);
      var pageBatches, pagePayloads := ScorePage(user, jobs, batchSize, matcher);
      PayloadsOfAppend(user, batches, pageBatches, matcher);
      BatchesOfSnoc(visited, jobs, batchSize);
      visited := visited + [jobs];
      batches := batches + pageBatches;
      payloads := payloads + pagePayloads;
      if page >= total {
        break;
      }
      page := page + 1;
    }
  }
}
