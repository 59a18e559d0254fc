/** The per-chunk retry loop: up to `max_retries` calls to the generative
    service, stopping at the first call that does not fail with a server
    error, waiting `2 ** attempt` seconds after each failed attempt but the
    last. The service is given as the outcome of each of its calls for the
    chunk, and the waits are returned instead of slept. */
module Retry {
  import opened Text

  /** What one call of the service does: answer with an optional text,
      raise a server error (retried), or raise anything else (not caught). */
  datatype Outcome = Ok(text: Option<string>) | ServerErr | OtherErr

  /** The service: the outcome of its `k`-th call, for every `k`. */
  type Service = nat -> Outcome

  /** The default `max_retries`. */
  const DefaultMaxRetries: nat := 5

  /** Used when the service answers with no text or an empty text. */
  const NoSummary: string := "No summary returned"

  /** Used when every attempt failed with a server error. */
  const Exhausted: string := "Summary could not be generated due to server error."

  /** How the loop for one chunk ends: with a summary to append, or with an
      exception that escapes it. Either way, how many calls it made and how
      long it waited after each failed one. */
  datatype Attempts =
    | Summarized(summary: string, calls: nat, waits: seq<nat>)
    | Raised(calls: nat, waits: seq<nat>)

  function Pow2(n: nat): (r: nat)
    ensures r >= 1
  {
    if n == 0 then 1 else 2 * Pow2(n - 1)
  }

  /** `response.text.strip() if response.text else "No summary returned"`:
      the truthiness test is on the raw text, so a whitespace-only answer
      becomes the empty string rather than the placeholder. */
  function ReplyText(text: Option<string>): string
  {
    match text
    case None => NoSummary
    case Some(t) => if t == [] then NoSummary else Strip(t)
  }

  /** The loop from attempt index `attempt` on. The result records the total number
      of calls made for the chunk (counting earlier attempts) and the waits
      from this attempt on; the exception escapes exactly when the last call
      raised something other than a server error. */
  function AttemptFrom(service: Service, maxRetries: nat, attempt: nat): (r: Attempts)
    requires attempt < maxRetries
    ensures attempt < r.calls <= maxRetries
    ensures |r.waits| == r.calls - 1 - attempt
    ensures r.Raised? <==> service(r.calls - 1).OtherErr?
    decreases maxRetries - attempt
  {
    match service(attempt)
    case Ok(t) => Summarized(ReplyText(t), attempt + 1, [])
    case OtherErr => Raised(attempt + 1, [])
    case ServerErr =>
      if attempt < maxRetries - 1 then
        var rest := AttemptFrom(service, maxRetries, attempt + 1);
        var waits := [Pow2(attempt)] + rest.waits;
        if rest.Summarized? then Summarized(rest.summary, rest.calls, waits)
        else Raised(rest.calls, waits)
      else
        Summarized(Exhausted, attempt + 1, [])
  }

  /** What the loop from `attempt` on does, in full:
      - the calls before the last one all failed with a server error, and
        the loop stops early only at a call that did not;
      - one wait follows every call but the last, the one after attempt
        `i` lasting `2^i` seconds;
      - a successful call yields its reply text, an unexpected error
        escapes, and exhaustion yields the fixed placeholder. */
  lemma {:induction false} AttemptFromSpec(service: Service, maxRetries: nat, attempt: nat)
    requires attempt < maxRetries
    ensures var r := AttemptFrom(service, maxRetries, attempt);
      && (forall i :: attempt <= i < r.calls - 1 ==> service(i).ServerErr?)
      && (r.calls < maxRetries ==> !service(r.calls - 1).ServerErr?)
      && (forall j :: 0 <= j < |r.waits| ==> r.waits[j] == Pow2(attempt + j))
      && (service(r.calls - 1).Ok? ==>
            r.Summarized? && r.summary == ReplyText(service(r.calls - 1).text))
      && (service(r.calls - 1).ServerErr? ==> r.Summarized? && r.summary == Exhausted)
    decreases maxRetries - attempt
  {
    AttemptWaits(service, maxRetries, attempt);
    if service(attempt).ServerErr? && attempt < maxRetries - 1 {
      AttemptFromSpec(service, maxRetries, attempt + 1);
    }
  }

  /** The wait after attempt `i` lasts `2^i` seconds. */
  lemma {:induction false} AttemptWaits(service: Service, maxRetries: nat, attempt: nat)
    requires attempt < maxRetries
    ensures forall j :: 0 <= j < |AttemptFrom(service, maxRetries, attempt).waits| ==>
      AttemptFrom(service, maxRetries, attempt).waits[j] == Pow2(attempt + j)
    decreases maxRetries - attempt
  {
    if service(attempt).ServerErr? && attempt < maxRetries - 1 {
      AttemptWaits(service, maxRetries, attempt + 1);
      var rest := AttemptFrom(service, maxRetries, attempt + 1);
      var r := AttemptFrom(service, maxRetries, attempt);
      assert r.waits == [Pow2(attempt)] + rest.waits;
      forall j | 0 <= j < |r.waits|
        ensures r.waits[j] == Pow2(attempt + j)
      {
        if j > 0 {
          assert r.waits[j] == rest.waits[j - 1] == Pow2(attempt + 1 + (j - 1));
        }
      }
    }
  }

  /** The whole loop for one chunk: between one and `max_retries` calls, one wait fewer than calls, and the
      exception escapes exactly when the last call raised something other
      than a server error. */
  function Summarize(service: Service, maxRetries: nat): (r: Attempts)
    requires 1 <= maxRetries
    ensures 1 <= r.calls <= maxRetries
    ensures |r.waits| == r.calls - 1
    ensures r.Raised? <==> service(r.calls - 1).OtherErr?
  {
    AttemptFrom(service, maxRetries, 0)
  }

  /** The loop for one chunk is fixed by the first call that is not a
      server error, or by all `max_retries` calls failing: every call before
      the last failed with a server error, the loop stops early only at a
      call that did not, the `j`-th wait lasts `2^j` seconds, and the last
      call's outcome decides between its reply text (`ReplyText`), the escaping
      exception and the placeholder. */
  lemma SummarizeSpec(service: Service, maxRetries: nat)
    requires 1 <= maxRetries
    ensures var r := Summarize(service, maxRetries);
      && (forall i :: 0 <= i < r.calls - 1 ==> service(i).ServerErr?)
      && (r.calls < maxRetries ==> !service(r.calls - 1).ServerErr?)
      && (forall j :: 0 <= j < |r.waits| ==> r.waits[j] == Pow2(j))
      && (service(r.calls - 1).Ok? ==>
            r.Summarized? && r.summary == ReplyText(service(r.calls - 1).text))
      && (service(r.calls - 1).ServerErr? ==> r.Summarized? && r.summary == Exhausted)
  {
    AttemptFromSpec(service, maxRetries, 0);
  }

  /** A loop whose calls before `attempt` all failed with a server error,
      and which stops at `attempt` (an answer, an unexpected error or the
      last attempt), makes `attempt + 1` calls after the waits `1, 2, 4, …`
      so far, and that call's outcome decides the result. */
  lemma StopsAt(service: Service, maxRetries: nat, attempt: nat, waits: seq<nat>)
    requires attempt < maxRetries
    requires forall i :: 0 <= i < attempt ==> service(i).ServerErr?
    requires attempt == maxRetries - 1 || !service(attempt).ServerErr?
    requires |waits| == attempt && forall j :: 0 <= j < attempt ==> waits[j] == Pow2(j)
    ensures Summarize(service, maxRetries) ==
      match service(attempt)
      case Ok(t) => Summarized(ReplyText(t), attempt + 1, waits)
      case OtherErr => Raised(attempt + 1, waits)
      case ServerErr => Summarized(Exhausted, attempt + 1, waits)
  {
    SummarizeSpec(service, maxRetries);
    var r := Summarize(service, maxRetries);
    assert r.calls == attempt + 1;
    assert r.waits == waits;
  }

  /** The loop as written: `for attempt in range(max_retries)` with a
      `break` on success, the exception escaping on an unexpected error,
      and a wait or the placeholder on a server error. */
  method RetryLoop(service: Service, maxRetries: nat) returns (r: Attempts)
    requires 1 <= maxRetries
    ensures r == Summarize(service, maxRetries)
  {
    var waits: seq<nat> := [];
    var attempt := 0;
    while true
      invariant attempt < maxRetries
      invariant |waits| == attempt
      invariant forall j :: 0 <= j < attempt ==> waits[j] == Pow2(j)
      invariant forall i :: 0 <= i < attempt ==> service(i).ServerErr?
      decreases maxRetries - attempt
    {
      match service(attempt)
      case Ok(t) =>
        r := Summarized(ReplyText(t), attempt + 1, waits);
        StopsAt(service, maxRetries, attempt, waits);
        return;
      case OtherErr =>
        r := Raised(attempt + 1, waits);
        StopsAt(service, maxRetries, attempt, waits);
        return;
      case ServerErr =>
        if attempt < maxRetries - 1 {
          waits := waits + [Pow2(attempt)];
          attempt := attempt + 1;
        } else {
          r := Summarized(Exhausted, attempt + 1, waits);
          StopsAt(service, maxRetries, attempt, waits);
          return;
        }
    }
  }

  /** The loop never looks past the calls it makes: two services that agree
      on those calls give the same result. */
  lemma {:induction false} NoLookahead(s1: Service, s2: Service, maxRetries: nat, attempt: nat)
    requires attempt < maxRetries
    requires var c := AttemptFrom(s1, maxRetries, attempt).calls;
      forall i :: attempt <= i < c ==> s1(i) == s2(i)
    ensures AttemptFrom(s2, maxRetries, attempt) == AttemptFrom(s1, maxRetries, attempt)
    decreases maxRetries - attempt
  {
    if s1(attempt).ServerErr? && attempt < maxRetries - 1 {
      NoLookahead(s1, s2, maxRetries, attempt + 1);
    }
  }

  /** A service that always fails with a server error is called exactly
      `max_retries` times, with waits 1, 2, 4, ... between the calls, and the
      chunk gets the exhaustion placeholder. */
  lemma AlwaysServerError(service: Service, maxRetries: nat)
    requires 1 <= maxRetries
    requires forall i :: 0 <= i < maxRetries ==> service(i).ServerErr?
    ensures var r := Summarize(service, maxRetries);
      r.Summarized? && r.summary == Exhausted && r.calls == maxRetries
      && |r.waits| == maxRetries - 1 && forall j :: 0 <= j < |r.waits| ==> r.waits[j] == Pow2(j)
  {
    SummarizeSpec(service, maxRetries);
  }

  /** With five attempts against a service that is always down: five calls
      and waits of 1, 2, 4 and 8 seconds. */
  lemma FiveServerErrors(service: Service)
    requires forall i :: 0 <= i < 5 ==> service(i).ServerErr?
    ensures Summarize(service, DefaultMaxRetries) == Summarized(Exhausted, 5, [1, 2, 4, 8])
  {
    AlwaysServerError(service, DefaultMaxRetries);
    var r := Summarize(service, DefaultMaxRetries);
    assert r.waits[0] == Pow2(0) == 1 && r.waits[1] == Pow2(1) == 2;
    assert r.waits[2] == Pow2(2) == 4 && r.waits[3] == Pow2(3) == 8;
  }

  /** Two server errors, then an answer: its text, after three calls and
      waits of 1 and 2 seconds. */
  lemma RecoversOnThirdAttempt(service: Service)
    requires service(0) == ServerErr && service(1) == ServerErr
    requires service(2) == Ok(Some("Right to life includes..."))
    ensures Summarize(service, DefaultMaxRetries) == Summarized("Right to life includes...", 3, [1, 2])
  {
    StripUntouched("Right to life includes...");
    SummarizeSpec(service, DefaultMaxRetries);
    var r := Summarize(service, DefaultMaxRetries);
    assert r.calls == 3;
    assert r.waits[0] == Pow2(0) == 1 && r.waits[1] == Pow2(1) == 2;
  }

  /** An empty answer is not retried: one call, no wait, the placeholder. */
  lemma EmptyAnswerNotRetried(service: Service, maxRetries: nat)
    requires 1 <= maxRetries
    requires service(0) == Ok(Some([])) || service(0) == Ok(None)
    ensures Summarize(service, maxRetries) == Summarized(NoSummary, 1, [])
  {
  }

  /** A whitespace-only answer passes the truthiness test, so it is stripped
      to the empty string instead of becoming the placeholder. */
  lemma BlankAnswerBecomesEmpty(t: string)
    requires t != [] && forall i :: 0 <= i < |t| ==> IsSpace(t[i])
    ensures ReplyText(Some(t)) == []
  {
    StripEmptyIffBlank(t);
  }
}
