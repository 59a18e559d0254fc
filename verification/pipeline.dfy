/** The whole pipeline over one case text: cut it into chunks, build one
    prompt per chunk for the chosen role, run the retry loop for each chunk
    in order against one service, and join the summaries. */
module Pipeline {
  import opened Text
  import opened Chunker
  import opened Prompts
  import opened Retry
  import opened Assembly

  /** How the loop over the chunks ends: every chunk got a summary, or an
      unexpected service error escaped while chunk `failedChunk` was being
      summarized. `calls` gives, for every service call in order, the index
      of the chunk whose prompt it carried; `waits` lists every backoff
      wait, in order. */
  datatype Run =
    | Completed(summaries: seq<string>, calls: seq<nat>, waits: seq<nat>)
    | Aborted(failedChunk: nat, calls: seq<nat>, waits: seq<nat>)

  /** The configuration the pipeline reads: chunk size and attempt bound. */
  datatype Config = Config(maxChars: nat, maxRetries: nat)

  const DefaultConfig: Config := Config(DefaultMaxChars, DefaultMaxRetries)

  /** The service as seen by a chunk whose first call is call `p` of the
      run. */
  function Shift(service: Service, p: nat): (r: Service)
    ensures forall k :: r(k) == service(p + k)
  {
    (k: nat) => service(p + k)
  }

  /** The retry loop of one chunk as a function of where the chunk's calls
      begin: `retry(p)` is how the loop turns out when its first call is
      call `p` of the run. */
  type ChunkRetry = nat -> Attempts

  /** Every chunk's loop makes between one and `max_retries` calls and
      waits after every call but the last. */
  ghost predicate Bounded(retry: ChunkRetry, maxRetries: nat)
  {
    forall p: nat :: 1 <= retry(p).calls <= maxRetries && |retry(p).waits| == retry(p).calls - 1
  }

  /** The retry loop run against the service, for a chunk whose first call
      is call `p`. */
  function Retries(service: Service, maxRetries: nat): ChunkRetry
    requires maxRetries >= 1
  {
    (p: nat) => Summarize(Shift(service, p), maxRetries)
  }

  /** A chunk's loop raises only when its last call raised something other
      than a server error. */
  ghost predicate RaisesOn(retry: ChunkRetry, service: Service)
  {
    forall p: nat :: retry(p).Raised? ==> 1 <= retry(p).calls && service(p + retry(p).calls - 1).OtherErr?
  }

  /** A chunk whose first call is answered takes that answer, after one
      call and no wait. */
  ghost predicate TakesFirstAnswer(retry: ChunkRetry, service: Service)
  {
    forall p: nat :: service(p).Ok? ==> retry(p) == Summarized(ReplyText(service(p).text), 1, [])
  }

  /** A chunk whose loop yields a summary met no unexpected error on any
      of its calls. */
  ghost predicate ClearWhenSummarized(retry: ChunkRetry, service: Service)
  {
    forall p: nat, k: nat :: retry(p).Summarized? && p <= k < p + retry(p).calls ==> !service(k).OtherErr?
  }

  /** The retry loop against the service is bounded by `max_retries`,
      raises only at an unexpected error and takes a first answer. */
  lemma RetriesProps(service: Service, maxRetries: nat)
    requires maxRetries >= 1
    ensures Bounded(Retries(service, maxRetries), maxRetries)
    ensures RaisesOn(Retries(service, maxRetries), service)
    ensures TakesFirstAnswer(Retries(service, maxRetries), service)
  {
    var retry := Retries(service, maxRetries);
    forall p: nat
      ensures 1 <= retry(p).calls <= maxRetries && |retry(p).waits| == retry(p).calls - 1
      ensures retry(p).Raised? ==> service(p + retry(p).calls - 1).OtherErr?
      ensures service(p).Ok? ==> retry(p) == Summarized(ReplyText(service(p).text), 1, [])
    {
      var o := Shift(service, p);
      var here := Summarize(o, maxRetries);
      assert retry(p) == here;
      assert o(here.calls - 1) == service(p + (here.calls - 1));
      assert o(0) == service(p);
      SummarizeSpec(o, maxRetries);
    }
  }

  /** The retry loop against the service yields a summary only when none
      of its calls raised an unexpected error. */
  lemma RetriesClear(service: Service, maxRetries: nat)
    requires maxRetries >= 1
    ensures ClearWhenSummarized(Retries(service, maxRetries), service)
  {
    var retry := Retries(service, maxRetries);
    forall p: nat, k: nat | retry(p).Summarized? && p <= k < p + retry(p).calls
      ensures !service(k).OtherErr?
    {
      var o := Shift(service, p);
      var here := Summarize(o, maxRetries);
      assert retry(p) == here;
      SummarizeSpec(o, maxRetries);
      assert service(k) == o(k - p);
    }
  }

  /** `n` copies of `x`: one chunk's index, once per call made for it. */
  function Repeat(x: nat, n: nat): (r: seq<nat>)
    ensures |r| == n && forall i :: 0 <= i < n ==> r[i] == x
  {
    seq(n, _ => x)
  }

  /** One turn of the loop over the chunks, after the turns for the chunks
      before it completed: the chunk's retry loop starts at the first call
      after the earlier chunks' calls; its calls (all for this chunk), its
      waits and its summary go after the earlier ones, and an unexpected
      error in it ends the run at this chunk's index. */
  function Extend(before: Run, retry: ChunkRetry, maxRetries: nat): (r: Run)
    requires before.Completed? && Bounded(retry, maxRetries)
    ensures |before.calls| < |r.calls| <= |before.calls| + maxRetries
    ensures |before.waits| <= |r.waits| && |r.calls| - |before.calls| == |r.waits| - |before.waits| + 1
    ensures r.calls[..|before.calls|] == before.calls && r.waits[..|before.waits|] == before.waits
    ensures forall j :: |before.calls| <= j < |r.calls| ==> r.calls[j] == |before.summaries|
    ensures r.Completed? ==>
      |r.summaries| == |before.summaries| + 1 && r.summaries[..|before.summaries|] == before.summaries
    ensures r.Aborted? ==> r.failedChunk == |before.summaries|
  {
    var here := retry(|before.calls|);
    var calls := before.calls + Repeat(|before.summaries|, here.calls);
    var waits := before.waits + here.waits;
    if here.Summarized? then Completed(before.summaries + [here.summary], calls, waits)
    else Aborted(|before.summaries|, calls, waits)
  }

  /** The loop over the chunks after its first `i` turns. While it runs it
      has one summary per turn and one wait per call beyond the first of
      each turn; once a turn aborts, no later turn runs. */
  function RunTo(retry: ChunkRetry, maxRetries: nat, i: nat): (r: Run)
    requires Bounded(retry, maxRetries)
    ensures r.Completed? ==> |r.summaries| == i && |r.calls| == |r.waits| + i
    ensures r.Aborted? ==> r.failedChunk < i && 0 < |r.calls|
    decreases i
  {
    if i == 0 then Completed([], [], [])
    else
      var before := RunTo(retry, maxRetries, i - 1);
      if before.Aborted? then before
      else Extend(before, retry, maxRetries)
  }

  /** No chunk makes more than `max_retries` calls. */
  lemma {:induction false} CallBound(retry: ChunkRetry, maxRetries: nat, i: nat)
    requires Bounded(retry, maxRetries)
    ensures |RunTo(retry, maxRetries, i).calls| <= maxRetries * i
    decreases i
  {
    if i > 0 {
      CallBound(retry, maxRetries, i - 1);
      assert maxRetries * i == maxRetries * (i - 1) + maxRetries;
    }
  }

  /** `n` copies of `x` hold `x` exactly `n` times and nothing else. */
  lemma {:induction false} RepeatCount(x: nat, n: nat, c: nat)
    ensures multiset(Repeat(x, n))[c] == if c == x then n else 0
  {
    if n > 0 {
      assert Repeat(x, n) == Repeat(x, n - 1) + [x];
      RepeatCount(x, n - 1, c);
    } else {
      assert Repeat(x, n) == [];
    }
  }

  /** No chunk gets more than `max_retries` calls: every chunk index occurs
      at most `max_retries` times among the calls of the first `i` turns. */
  lemma {:induction false} PerChunkBound(retry: ChunkRetry, maxRetries: nat, i: nat)
    requires Bounded(retry, maxRetries)
    ensures forall c: nat :: multiset(RunTo(retry, maxRetries, i).calls)[c] <= maxRetries
    decreases i
  {
    if i > 0 {
      PerChunkBound(retry, maxRetries, i - 1);
      var before := RunTo(retry, maxRetries, i - 1);
      if before.Completed? {
        CallsInRange(retry, maxRetries, i - 1);
        var here := retry(|before.calls|);
        var x := |before.summaries|;
        assert x == i - 1;
        assert x !in before.calls;
        CountAppend(before.calls, x, here.calls, maxRetries);
        assert RunTo(retry, maxRetries, i).calls == before.calls + Repeat(x, here.calls);
      }
    }
  }

  /** Appending at most `m` calls for a chunk not yet called keeps every
      chunk's count of calls at most `m`. */
  lemma CountAppend(calls: seq<nat>, x: nat, n: nat, m: nat)
    requires forall c: nat :: multiset(calls)[c] <= m
    requires x !in calls && n <= m
    ensures forall c: nat :: multiset(calls + Repeat(x, n))[c] <= m
  {
    forall c: nat
      ensures multiset(calls + Repeat(x, n))[c] <= m
    {
      RepeatCount(x, n, c);
    }
  }

  /** Once a turn has aborted the run, the later chunks are never reached:
      every later state of the loop is that aborted one. */
  lemma {:induction false} AbortEndsRun(retry: ChunkRetry, maxRetries: nat, i: nat, j: nat)
    requires Bounded(retry, maxRetries) && i <= j && RunTo(retry, maxRetries, i).Aborted?
    ensures RunTo(retry, maxRetries, j) == RunTo(retry, maxRetries, i)
    decreases j
  {
    if i < j {
      AbortEndsRun(retry, maxRetries, i, j - 1);
    }
  }

  /** Every call made in the first `i` turns is for one of those chunks. */
  lemma {:induction false} CallsInRange(retry: ChunkRetry, maxRetries: nat, i: nat)
    requires Bounded(retry, maxRetries)
    ensures forall j :: 0 <= j < |RunTo(retry, maxRetries, i).calls| ==> RunTo(retry, maxRetries, i).calls[j] < i
    decreases i
  {
    if i > 0 {
      CallsInRange(retry, maxRetries, i - 1);
      var before := RunTo(retry, maxRetries, i - 1);
      var r := RunTo(retry, maxRetries, i);
      if before.Completed? {
        forall j | 0 <= j < |r.calls|
          ensures r.calls[j] < i
        {
          if j < |before.calls| {
            assert r.calls[j] == r.calls[..|before.calls|][j];
          }
        }
      }
    }
  }

  /** The state after `i` turns is where a completed run stood then: it
      had completed too, with the first `i` summaries and the calls and
      waits made so far. */
  lemma {:induction false} RunPrefix(retry: ChunkRetry, maxRetries: nat, i: nat, j: nat)
    requires Bounded(retry, maxRetries) && i <= j
    requires RunTo(retry, maxRetries, j).Completed?
    ensures RunTo(retry, maxRetries, i).Completed?
    ensures RunTo(retry, maxRetries, i).summaries == RunTo(retry, maxRetries, j).summaries[..i]
    ensures |RunTo(retry, maxRetries, i).calls| <= |RunTo(retry, maxRetries, j).calls|
    ensures RunTo(retry, maxRetries, i).calls
      == RunTo(retry, maxRetries, j).calls[..|RunTo(retry, maxRetries, i).calls|]
    ensures |RunTo(retry, maxRetries, i).waits| <= |RunTo(retry, maxRetries, j).waits|
    ensures RunTo(retry, maxRetries, i).waits
      == RunTo(retry, maxRetries, j).waits[..|RunTo(retry, maxRetries, i).waits|]
    decreases j
  {
    var r := RunTo(retry, maxRetries, j);
    if i == j {
      TakeAll(r.summaries, i);
      TakeAll(r.calls, |r.calls|);
      TakeAll(r.waits, |r.waits|);
    } else {
      var before := RunTo(retry, maxRetries, j - 1);
      RunPrefix(retry, maxRetries, i, j - 1);
      var b := RunTo(retry, maxRetries, i);
      TakeTake(r.summaries, i, |before.summaries|);
      TakeTake(r.calls, |b.calls|, |before.calls|);
      TakeTake(r.waits, |b.waits|, |before.waits|);
    }
  }

  /** In a completed run, chunk `i`'s summary comes from its own retry
      loop, started at the first call after those of the chunks before it,
      and every call of that loop is for chunk `i`. */
  lemma ChunkOrder(retry: ChunkRetry, maxRetries: nat, n: nat, i: nat)
    requires Bounded(retry, maxRetries) && i < n
    requires RunTo(retry, maxRetries, n).Completed?
    ensures RunTo(retry, maxRetries, i).Completed?
    ensures var r := RunTo(retry, maxRetries, n);
      var start := |RunTo(retry, maxRetries, i).calls|;
      && retry(start).Summarized?
      && r.summaries[i] == retry(start).summary
      && start + retry(start).calls <= |r.calls|
      && forall k :: start <= k < start + retry(start).calls ==> r.calls[k] == i
  {
    RunPrefix(retry, maxRetries, i + 1, n);
    RunPrefix(retry, maxRetries, i, n);
    var r := RunTo(retry, maxRetries, n);
    var next := RunTo(retry, maxRetries, i + 1);
    assert r.summaries[i] == r.summaries[..i + 1][i];
    forall k | |RunTo(retry, maxRetries, i).calls| <= k < |next.calls|
      ensures r.calls[k] == i
    {
      assert r.calls[k] == r.calls[..|next.calls|][k];
    }
  }

  /** A run that aborts does so at an unexpected error on its last
      call. */
  lemma {:induction false} AbortCause(retry: ChunkRetry, service: Service, maxRetries: nat, i: nat)
    requires Bounded(retry, maxRetries) && RaisesOn(retry, service)
    ensures RunTo(retry, maxRetries, i).Aborted? ==> service(|RunTo(retry, maxRetries, i).calls| - 1).OtherErr?
    decreases i
  {
    if i > 0 {
      AbortCause(retry, service, maxRetries, i - 1);
      var before := RunTo(retry, maxRetries, i - 1);
      if before.Completed? {
        var p := |before.calls|;
        assert retry(p).Raised? ==> 1 <= retry(p).calls && service(p + retry(p).calls - 1).OtherErr?;
      }
    }
  }

  /** The loop over all `n` chunks against the service: a run that
      completes has one summary per chunk and one wait per call beyond the
      first of each chunk; a run that aborts names a chunk and ends at an
      unexpected error on its last call. */
  function SummarizeChunks(n: nat, service: Service, maxRetries: nat): (r: Run)
    requires maxRetries >= 1
    ensures r.Completed? ==> |r.summaries| == n && |r.calls| == |r.waits| + n
    ensures r.Aborted? ==> r.failedChunk < n && 0 < |r.calls| && service(|r.calls| - 1).OtherErr?
  {
    RetriesProps(service, maxRetries);
    AbortCause(Retries(service, maxRetries), service, maxRetries, n);
    RunTo(Retries(service, maxRetries), maxRetries, n)
  }

  /** The loop over the chunks as written: for each chunk in order, run its
      retry loop from the first call not yet made and append its summary;
      an unexpected error leaves the loop. */
  method SummarizeLoop(chunks: seq<string>, service: Service, maxRetries: nat) returns (r: Run)
    requires maxRetries >= 1
    ensures r == SummarizeChunks(|chunks|, service, maxRetries)
  {
    ghost var retry := Retries(service, maxRetries);
    RetriesProps(service, maxRetries);
    var summaries: seq<string> := [];
    var calls: seq<nat> := [];
    var waits: seq<nat> := [];
    var i := 0;
    while i < |chunks|
      invariant i <= |chunks|
      invariant Completed(summaries, calls, waits) == RunTo(retry, maxRetries, i)
    {
      var here := RetryLoop(Shift(service, |calls|), maxRetries);
      assert here == retry(|calls|);
      calls := calls + Repeat(i, here.calls);
      waits := waits + here.waits;
      if here.Raised? {
        r := Aborted(i, calls, waits);
        AbortEndsRun(retry, maxRetries, i + 1, |chunks|);
        return;
      }
      summaries := summaries + [here.summary];
      i := i + 1;
    }
    r := Completed(summaries, calls, waits);
  }

  /** A run in which no chunk's loop raises always completes. */
  lemma {:induction false} CompletesWithoutRaise(retry: ChunkRetry, maxRetries: nat, i: nat)
    requires Bounded(retry, maxRetries)
    requires forall p: nat :: !retry(p).Raised?
    ensures RunTo(retry, maxRetries, i).Completed?
    decreases i
  {
    if i > 0 {
      CompletesWithoutRaise(retry, maxRetries, i - 1);
    }
  }

  /** A service that never raises anything but server errors lets every
      chunk get its summary: the run always completes. */
  lemma CompletesWithoutOtherErrors(service: Service, maxRetries: nat, n: nat)
    requires maxRetries >= 1
    requires forall k :: !service(k).OtherErr?
    ensures SummarizeChunks(n, service, maxRetries).Completed?
  {
    RetriesProps(service, maxRetries);
    CompletesWithoutRaise(Retries(service, maxRetries), maxRetries, n);
  }

  /** In a completed run, chunk `i`'s summary is what the retry loop
      yields against the service from the first call after those of the
      chunks before it. */
  lemma ChunkSummary(service: Service, maxRetries: nat, n: nat, i: nat)
    requires maxRetries >= 1 && i < n
    requires SummarizeChunks(n, service, maxRetries).Completed?
    ensures SummarizeChunks(i, service, maxRetries).Completed?
    ensures var start := |SummarizeChunks(i, service, maxRetries).calls|;
      && Summarize(Shift(service, start), maxRetries).Summarized?
      && SummarizeChunks(n, service, maxRetries).summaries[i]
        == Summarize(Shift(service, start), maxRetries).summary
  {
    RetriesProps(service, maxRetries);
    ChunkOrder(Retries(service, maxRetries), maxRetries, n, i);
  }

  /** A completed run met no unexpected error on any call it made. */
  lemma {:induction false} CompletedClear(retry: ChunkRetry, service: Service, maxRetries: nat, i: nat)
    requires Bounded(retry, maxRetries) && ClearWhenSummarized(retry, service)
    ensures RunTo(retry, maxRetries, i).Completed? ==>
      forall k :: 0 <= k < |RunTo(retry, maxRetries, i).calls| ==> !service(k).OtherErr?
    decreases i
  {
    if i > 0 && RunTo(retry, maxRetries, i).Completed? {
      CompletedClear(retry, service, maxRetries, i - 1);
      var before := RunTo(retry, maxRetries, i - 1);
      var p := |before.calls|;
      var here := retry(p);
      assert here.Summarized?;
      assert |RunTo(retry, maxRetries, i).calls| == p + here.calls;
    }
  }

  /** A run over `n` chunks completes exactly when none of the calls it
      makes raises an unexpected error. */
  lemma CompletedIffNoOtherErr(service: Service, maxRetries: nat, n: nat)
    requires maxRetries >= 1
    ensures SummarizeChunks(n, service, maxRetries).Completed?
      <==> forall k :: 0 <= k < |SummarizeChunks(n, service, maxRetries).calls| ==> !service(k).OtherErr?
  {
    RetriesProps(service, maxRetries);
    RetriesClear(service, maxRetries);
    CompletedClear(Retries(service, maxRetries), service, maxRetries, n);
  }

  /** The reply texts (`ReplyText`) of the service's first `n` answers, in
      order: each stripped, or "No summary returned" when absent or empty. */
  function Answers(service: Service, n: nat): (r: seq<string>)
    requires forall k :: 0 <= k < n ==> service(k).Ok?
    ensures |r| == n
  {
    if n == 0 then [] else Answers(service, n - 1) + [ReplyText(service(n - 1).text)]
  }

  /** Entry `k` of the answers is the reply text of call `k`. */
  lemma {:induction false} AnswerAt(service: Service, n: nat, k: nat)
    requires k < n && forall j :: 0 <= j < n ==> service(j).Ok?
    ensures Answers(service, n)[k] == ReplyText(service(k).text)
    decreases n
  {
    if k < n - 1 {
      AnswerAt(service, n - 1, k);
      assert Answers(service, n)[k] == Answers(service, n - 1)[k];
    }
  }

  /** When every call is answered, every chunk gets through on its first
      attempt: one call per chunk, in chunk order, and no waiting. */
  lemma {:induction false} AnsweredCalls(retry: ChunkRetry, service: Service, maxRetries: nat, i: nat)
    requires Bounded(retry, maxRetries) && TakesFirstAnswer(retry, service)
    requires forall k :: 0 <= k < i ==> service(k).Ok?
    ensures RunTo(retry, maxRetries, i).Completed?
    ensures |RunTo(retry, maxRetries, i).calls| == i && RunTo(retry, maxRetries, i).waits == []
    ensures forall k :: 0 <= k < i ==> RunTo(retry, maxRetries, i).calls[k] == k
    decreases i
  {
    if i > 0 {
      AnsweredCalls(retry, service, maxRetries, i - 1);
      var before := RunTo(retry, maxRetries, i - 1);
      assert retry(i - 1).calls == 1 && retry(i - 1).waits == [];
      assert Repeat(i - 1, 1) == [i - 1];
      var r := RunTo(retry, maxRetries, i);
      assert r.calls == before.calls + [i - 1];
      assert r.waits == before.waits + [];
      forall k | 0 <= k < i
        ensures r.calls[k] == k
      {
        if k < i - 1 {
          assert r.calls[k] == before.calls[k];
        }
      }
    }
  }

  /** When every call is answered, the summaries are the reply texts of the
      answers, in order. */
  lemma {:induction false} AnsweredSummaries(retry: ChunkRetry, service: Service, maxRetries: nat, i: nat)
    requires Bounded(retry, maxRetries) && TakesFirstAnswer(retry, service)
    requires forall k :: 0 <= k < i ==> service(k).Ok?
    ensures RunTo(retry, maxRetries, i).Completed?
    ensures RunTo(retry, maxRetries, i).summaries == Answers(service, i)
    decreases i
  {
    if i > 0 {
      AnsweredCalls(retry, service, maxRetries, i - 1);
      AnsweredSummaries(retry, service, maxRetries, i - 1);
      assert retry(i - 1) == Summarized(ReplyText(service(i - 1).text), 1, []);
    }
  }

  /** A service that answers every call lets every chunk through on its
      first attempt: one call per chunk, in chunk order, no waiting, and
      each chunk's summary is the reply text of its answer: the stripped
      text, or "No summary returned" when the text is absent or empty. */
  lemma AllAnswered(service: Service, maxRetries: nat, n: nat)
    requires maxRetries >= 1
    requires forall k :: 0 <= k < n ==> service(k).Ok?
    ensures var r := SummarizeChunks(n, service, maxRetries);
      && r.Completed? && |r.calls| == n && r.waits == []
      && (forall k :: 0 <= k < n ==> r.calls[k] == k)
      && r.summaries == Answers(service, n)
  {
    RetriesProps(service, maxRetries);
    AnsweredCalls(Retries(service, maxRetries), service, maxRetries, n);
    AnsweredSummaries(Retries(service, maxRetries), service, maxRetries, n);
  }

  /** With every call answered, chunk `k`'s summary is the reply text of
      call `k`. */
  lemma AnsweredSummary(service: Service, maxRetries: nat, n: nat, k: nat)
    requires maxRetries >= 1 && k < n
    requires forall j :: 0 <= j < n ==> service(j).Ok?
    ensures SummarizeChunks(n, service, maxRetries).Completed?
    ensures SummarizeChunks(n, service, maxRetries).summaries[k] == ReplyText(service(k).text)
  {
    AllAnswered(service, maxRetries, n);
    AnswerAt(service, n, k);
  }

  /** One prompt per chunk, all for the same role. */
  function PromptsFor(role: string, chunks: seq<string>): (ps: seq<string>)
    ensures |ps| == |chunks|
    ensures forall i :: 0 <= i < |chunks| ==> ps[i] == Prompt(role, chunks[i])
  {
    seq(|chunks|, i requires 0 <= i < |chunks| => Prompt(role, chunks[i]))
  }

  /** The prompt of every call, from the chunk index it was made for. */
  function Sent(prompts: seq<string>, calls: seq<nat>): (r: seq<string>)
    requires forall j :: 0 <= j < |calls| ==> calls[j] < |prompts|
    ensures |r| == |calls| && forall j :: 0 <= j < |calls| ==> r[j] == prompts[calls[j]]
  {
    seq(|calls|, j requires 0 <= j < |calls| => prompts[calls[j]])
  }

  /** What running the script on one case text produces: the final summary
      with the per-chunk summaries it joins, or the chunk at which an
      unexpected service error ended the run; in both cases, for every
      service call, the chunk it was for and the prompt it sent, and every
      wait. */
  datatype Report =
    | Printed(finalSummary: string, summaries: seq<string>, calls: seq<nat>, sent: seq<string>, waits: seq<nat>)
    | Crashed(failedChunk: nat, calls: seq<nat>, sent: seq<string>, waits: seq<nat>)

  /** The pipeline on one case text with the role as typed. */
  function SummarizeCase(text: string, rawRole: string, cfg: Config, service: Service): (r: Report)
    requires cfg.maxChars > 0 && cfg.maxRetries >= 1
    ensures var chunks := Chunks(text, cfg.maxChars);
      && (r.Printed? ==> |r.summaries| == |chunks| && r.finalSummary == Assemble(r.summaries))
      && (r.Crashed? ==> r.failedChunk < |chunks|)
      && |r.calls| <= cfg.maxRetries * |chunks| && |r.sent| == |r.calls|
      && (forall c: nat :: multiset(r.calls)[c] <= cfg.maxRetries)
      && forall j :: 0 <= j < |r.calls| ==>
        r.calls[j] < |chunks| && r.sent[j] == Prompt(NormalizeRole(rawRole), chunks[r.calls[j]])
    ensures text == [] ==> r == Printed("", [], [], [], [])
  {
    var chunks := Chunks(text, cfg.maxChars);
    var prompts := PromptsFor(NormalizeRole(rawRole), chunks);
    RetriesProps(service, cfg.maxRetries);
    CallsInRange(Retries(service, cfg.maxRetries), cfg.maxRetries, |chunks|);
    CallBound(Retries(service, cfg.maxRetries), cfg.maxRetries, |chunks|);
    PerChunkBound(Retries(service, cfg.maxRetries), cfg.maxRetries, |chunks|);
    var run := SummarizeChunks(|chunks|, service, cfg.maxRetries);
    match run
    case Completed(ss, calls, ws) => Printed(Assemble(ss), ss, calls, Sent(prompts, calls), ws)
    case Aborted(k, calls, ws) => Crashed(k, calls, Sent(prompts, calls), ws)
  }

  /** A 17,000-character case text under the default `max_chars` is cut
      into three chunks of 8000, 8000 and 1000 characters. */
  lemma ExampleChunks(text: string)
    requires |text| == 17000
    ensures var chunks := Chunks(text, DefaultMaxChars);
      |chunks| == 3 && |chunks[0]| == 8000 && |chunks[1]| == 8000 && |chunks[2]| == 1000
  {
    ChunkCount(text, DefaultMaxChars);
    assert PieceCount(17000, 8000) == 3;
    LastChunkLength(text, DefaultMaxChars);
  }

  /** A 17,000-character case text read as a lawyer, with the default
      configuration, against a service that always answers: one call per chunk in chunk order
      with the lawyer prompt for that chunk, no waits, and the three
      answers joined by blank lines. */
  lemma LawyerExample(text: string, rawRole: string, service: Service)
    requires |text| == 17000 && NormalizeRole(rawRole) == "lawyer"
    requires forall k :: service(k).Ok?
    ensures var chunks := Chunks(text, DefaultMaxChars);
      var r := SummarizeCase(text, rawRole, DefaultConfig, service);
      && |chunks| == 3 && r.Printed? && r.waits == [] && r.calls == [0, 1, 2]
      && r.sent == [Prompt("lawyer", chunks[0]), Prompt("lawyer", chunks[1]), Prompt("lawyer", chunks[2])]
      && r.finalSummary == ReplyText(service(0).text) + Separator + ReplyText(service(1).text)
        + Separator + ReplyText(service(2).text)
  {
    ExampleChunks(text);
    AllAnswered(service, DefaultMaxRetries, 3);
    AnsweredSummary(service, DefaultMaxRetries, 3, 0);
    AnsweredSummary(service, DefaultMaxRetries, 3, 1);
    AnsweredSummary(service, DefaultMaxRetries, 3, 2);
    var run := SummarizeChunks(3, service, DefaultMaxRetries);
    ThreeElements(run.summaries);
    ThreeElements(run.calls);
    AssembleThree(run.summaries[0], run.summaries[1], run.summaries[2]);
    var r := SummarizeCase(text, rawRole, DefaultConfig, service);
    ThreeElements(r.sent);
  }
}
