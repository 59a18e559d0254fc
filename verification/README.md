# legalEase case summarizer: a Dafny model of the summarization pipeline

legalEase summarizes a court judgment for one of three readers: the general
public, a law student or a lawyer. `summarization/main.py` fetches the
judgment text, then does the part modelled here:

1. **Chunking.** `chunk_text` cuts the text into pieces of at most
   `max_chars` (8000) characters at fixed offsets.
2. **Prompting.** `get_prompt` wraps each chunk in one of three role
   templates, or in a generic fallback for any other role. The role is
   trimmed and lower-cased where it is read.
3. **Retrying.** For each chunk in order, the generative service is called
   up to `max_retries` (5) times. A `ServerError` is retried after a
   `2 ** attempt` second back-off. The loop gives up with a fixed
   placeholder after the last attempt. Any other exception escapes and ends
   the program.
4. **Assembly.** The per-chunk summaries are joined with a blank line.

The model is split into these modules:

- `Text` (`text.dfy`): Python's clamped slicing, `sep.join`, and ASCII models
  of `str.strip()` and `str.lower()`.
- `Chunker` (`chunker.dfy`): `chunk_text`.
- `Prompts` (`prompts.dfy`): `get_prompt` and role normalisation.
- `Retry` (`retry.dfy`): the retry loop for one chunk.
- `Assembly` (`assembly.dfy`): the final join.
- `Pipeline` (`pipeline.dfy`): the loop over the chunks and the whole run
  on one case text.

**The service.** The generative service is a parameter of type
`Service = nat -> Outcome`. It maps the number of each call made during
the run to that call's outcome:

- `Ok(text)`: an answer whose text may be absent;
- `ServerErr`: a server error, which the loop retries;
- `OtherErr`: any other exception, which the loop does not catch.

**Waits and calls.** Back-off waits are returned as a list of seconds
instead of being slept. A run records which chunk each service call was
made for. The prompt sent on each call is recovered from that chunk index.

**Answers.** An answer is stripped before it is used. A whitespace-only
answer is truthy, so it is stripped to the empty string. Only an absent or
empty answer gives "No summary returned" (`Retry.ReplyText`,
`Retry.BlankAnswerBecomesEmpty`).

## Model

| member | source | states |
|---|---|---|
| Text.Slice | summarization/main.py:104-105 | `text[start:end]` has length `end - start` inside the text and is cut short at the end of the text |
| Text.TrimStartSpec | summarization/main.py:142 | `lstrip` drops exactly the leading whitespace: the rest is a suffix of the input that does not start with whitespace |
| Text.TrimEndSpec | summarization/main.py:142 | `rstrip` drops exactly the trailing whitespace: the rest is a prefix of the input that does not end with whitespace |
| Text.StripIsTrimmedInfix | summarization/main.py:142 | `strip()` returns the contiguous piece of the input that starts after its leading whitespace and has only whitespace after it |
| Text.StripEnds | summarization/main.py:142 | a non-empty stripped text neither starts nor ends with whitespace |
| Text.StripEmptyIffBlank | summarization/main.py:142 | `strip()` gives the empty string exactly when every character is whitespace |
| Text.StripUntouched | summarization/main.py:142 | a text without whitespace at either end is returned unchanged by `strip()` |
| Text.StripIdempotent | summarization/main.py:125 | stripping twice is stripping once |
| Text.LowerIdempotent | summarization/main.py:125 | lower-casing twice is lower-casing once |
| Text.TrimStartLower | summarization/main.py:125 | dropping leading whitespace commutes with lower-casing |
| Text.TrimEndLower | summarization/main.py:125 | dropping trailing whitespace commutes with lower-casing |
| Text.StripLower | summarization/main.py:125 | `strip()` and `lower()` commute, so the order of the two calls on the role does not matter |
| Text.JoinLength | summarization/main.py:157 | a join is as long as its parts plus one separator between each neighbouring pair |
| Text.JoinAppend | summarization/main.py:157 | joining one more part appends one separator and that part |
| Text.JoinPlacement | summarization/main.py:157 | every part appears verbatim in the join at its offset, followed by the separator unless it is last |
| Chunker.ChunksFrom | summarization/main.py:102-106 | the loop from offset `start` yields no chunk exactly when `start` is at or past the end of the text |
| Chunker.ChunksFromHead | summarization/main.py:103-106 | from an offset inside the text, one turn yields the clamped slice there, and the loop then goes on from `start + max_chars` |
| Chunker.ChunkSizes | summarization/main.py:102-106 | every chunk is non-empty and at most `max_chars` long, and all but the last are exactly `max_chars` long |
| Chunker.ChunksSpell | summarization/main.py:102-106 | the chunks from an offset inside the text concatenate to the rest of the text |
| Chunker.Chunks | summarization/main.py:100-107 | the chunks concatenate back to the text; there are none exactly when the text is empty; sizes as in `ChunkSizes` |
| Chunker.ChunksFromBounds | summarization/main.py:102-106 | the number `c` of chunks cut from a non-empty remainder of length `n` satisfies `(c - 1) * max_chars < n <= c * max_chars` |
| Chunker.ChunkCount | summarization/main.py:100-107 | the number of chunks is `ceil(len(text) / max_chars)`, and zero for the empty text |
| Chunker.OffsetIsProduct | summarization/main.py:106 | after `i` turns, `start` has advanced by `i * max_chars` |
| Chunker.ChunksFromAt | summarization/main.py:103-106 | the `i`-th chunk from `start` is the clamped slice at `start + i * max_chars` |
| Chunker.ChunkAt | summarization/main.py:100-107 | chunk `i` is `text[i*k:(i+1)*k]`, and its start lies inside the text |
| Chunker.LastChunkLength | summarization/main.py:100-107 | the last chunk holds `len(text) % max_chars` characters, or `max_chars` when that remainder is zero |
| Chunker.ChunkLoop | summarization/main.py:100-107 | the `while` loop as written produces the chunks, and they concatenate back to the text |
| Chunker.AppendPiece | summarization/main.py:104-106 | one turn of the loop moves one chunk from the pieces still to cut to the pieces already cut |
| Prompts.Prompt | summarization/main.py:115-123 | a prompt starts with its role's instruction and ends with a blank line and the chunk, and nothing else is in it |
| Prompts.HeadersDiffer | summarization/main.py:116-123 | any two of the four templates differ at a character inside both |
| Prompts.OtherHeaderAbsent | summarization/main.py:116-123 | a prompt built from one template never starts with another template's header |
| Prompts.ParsePromptInverse | summarization/main.py:115-123 | reading a prompt back recovers exactly the template used and the chunk embedded |
| Prompts.PromptInjective | summarization/main.py:115-123 | two prompts are equal exactly when they use the same template and the same chunk |
| Prompts.FallbackRole | summarization/main.py:122-123 | any role other than "public", "student" and "lawyer", including a differently-cased one, gets the generic template |
| Prompts.LawyerBriefSections | summarization/main.py:120-121 | the lawyer prompt names Facts, Issues, Arguments, Court Reasoning, Judgment and Key Takeaways |
| Prompts.FirstSections | summarization/main.py:121 | the first half of the lawyer's section list names Facts, Issues and Arguments |
| Prompts.SecondSections | summarization/main.py:121 | the second half of the lawyer's section list names Court Reasoning, Judgment and Key Takeaways |
| Prompts.NormalizeRoleIdempotent | summarization/main.py:125 | normalising an already normalised role changes nothing |
| Retry.AttemptFrom | summarization/main.py:136-152 | from attempt `a` on, the loop makes between `a + 1` and `max_retries` calls and waits after every call but the last; it raises exactly when its last call raised a non-server error |
| Retry.AttemptFromSpec | summarization/main.py:136-152 | every call but the last failed with a server error; the loop stops early only at a call that did not; an answer yields its text and exhaustion yields the placeholder |
| Retry.AttemptWaits | summarization/main.py:146-149 | the wait after attempt `i` lasts `2 ** i` seconds |
| Retry.Summarize | summarization/main.py:136-152 | one chunk's loop makes between 1 and `max_retries` calls with one wait fewer than calls, and raises exactly when the last call raised a non-server error |
| Retry.SummarizeSpec | summarization/main.py:136-152 | one chunk's loop is decided by its first call that is not a server error, or by exhaustion; waits are 1, 2, 4, ... seconds |
| Retry.StopsAt | summarization/main.py:136-152 | a loop whose earlier calls all hit server errors and that stops at attempt `a` (an answer, an unexpected error or the last attempt) makes `a + 1` calls after waits 1, 2, 4, ..., and call `a`'s outcome gives the reply text, the raise or the placeholder |
| Retry.RetryLoop | summarization/main.py:136-152 | the `for`/`try`/`break` loop as written computes `Summarize` |
| Retry.NoLookahead | summarization/main.py:136-152 | the loop's result depends only on the outcomes of the calls it actually makes |
| Retry.AlwaysServerError | summarization/main.py:145-152 | a service that always fails with a server error is called exactly `max_retries` times, with waits 1, 2, 4, ..., and yields the placeholder |
| Retry.FiveServerErrors | summarization/main.py:130-152 | with the default of five attempts, a service that is down gets five calls and waits of 1, 2, 4 and 8 seconds |
| Retry.RecoversOnThirdAttempt | summarization/main.py:136-149 | two server errors and then an answer give that answer after three calls and waits of 1 and 2 seconds |
| Retry.EmptyAnswerNotRetried | summarization/main.py:142-144 | an absent or empty answer is not retried: one call, no wait, "No summary returned" |
| Retry.BlankAnswerBecomesEmpty | summarization/main.py:142 | a whitespace-only answer passes the truthiness test and is stripped to the empty string |
| Assembly.Assemble | summarization/main.py:157 | no summary gives the empty text and one summary comes back unchanged; otherwise the output is as long as the summaries plus one blank line between each pair |
| Assembly.AssemblePlacement | summarization/main.py:157 | each summary appears verbatim at its place in the output, followed by a blank line unless it is last |
| Assembly.AssembleAppend | summarization/main.py:157 | one more summary appends a blank line and that summary |
| Assembly.AssembleThree | summarization/main.py:157 | three summaries come out as `a + "\n\n" + b + "\n\n" + c` |
| Pipeline.RetriesProps | summarization/main.py:132-152 | each chunk's loop against the service is bounded by `max_retries`, raises only at a non-server error, and takes a first answer after one call |
| Pipeline.Extend | summarization/main.py:132-152 | one turn of the chunk loop adds 1 to `max_retries` calls, all for the current chunk, after the earlier ones; it adds one summary, or aborts at this chunk |
| Pipeline.RunTo | summarization/main.py:132-152 | after `i` turns, a completed run has `i` summaries and one wait per call beyond each chunk's first; an aborted one names an earlier chunk |
| Pipeline.CallBound | summarization/main.py:130-136 | `i` turns make at most `max_retries * i` calls |
| Pipeline.RepeatCount | summarization/main.py:136 | the calls of one chunk's loop record that chunk's index once per call and nothing else |
| Pipeline.CountAppend | summarization/main.py:132-152 | adding at most `max_retries` calls for a chunk not called before keeps every chunk at `max_retries` calls or fewer |
| Pipeline.PerChunkBound | summarization/main.py:130-152 | after `i` turns, no chunk has had more than `max_retries` calls |
| Pipeline.AbortEndsRun | summarization/main.py:132-152 | once an unexpected error has escaped, no later chunk is processed |
| Pipeline.CallsInRange | summarization/main.py:132-138 | every call made in the first `i` turns carries the prompt of one of those chunks |
| Pipeline.RunPrefix | summarization/main.py:132-152 | an earlier state of a completed run had completed too, and its summaries, calls and waits are prefixes of the later ones |
| Pipeline.ChunkOrder | summarization/main.py:132-152 | in a completed run, chunk `i`'s summary comes from its own loop, which starts after the earlier chunks' calls, and all of that loop's calls are for chunk `i` |
| Pipeline.AbortCause | summarization/main.py:132-152 | a run aborts only at an unexpected error on its last call |
| Pipeline.SummarizeChunks | summarization/main.py:132-152 | over `n` chunks, a completed run has `n` summaries; an aborted run names a chunk and ends at a non-server error |
| Pipeline.SummarizeLoop | summarization/main.py:132-152 | the loop over the chunks as written computes `SummarizeChunks` |
| Pipeline.CompletesWithoutRaise | summarization/main.py:132-152 | if no chunk's loop raises, the run completes |
| Pipeline.CompletesWithoutOtherErrors | summarization/main.py:132-152 | a service that raises nothing but server errors always lets the run complete |
| Pipeline.RetriesClear | summarization/main.py:136-152 | a chunk's loop yields a summary only when none of its calls raised a non-server error |
| Pipeline.CompletedClear | summarization/main.py:132-152 | a completed run met no non-server error on any call it made |
| Pipeline.CompletedIffNoOtherErr | summarization/main.py:132-152 | a run completes exactly when none of the calls it makes raises a non-server error |
| Pipeline.ChunkSummary | summarization/main.py:132-152 | in a completed run, chunk `i`'s summary is the retry loop's result against the service from the first call after the earlier chunks' calls |
| Pipeline.AnswerAt | summarization/main.py:142 | entry `k` of the answers is the reply text of call `k`: its stripped text, or "No summary returned" when the text is absent or empty |
| Pipeline.AnsweredCalls | summarization/main.py:132-152 | when every call is answered, each chunk makes exactly one call, in chunk order, with no waits |
| Pipeline.AnsweredSummaries | summarization/main.py:132-152 | when every call is answered, the summaries are the reply texts of the calls in order: each stripped, or "No summary returned" when the text is absent or empty |
| Pipeline.AllAnswered | summarization/main.py:132-152 | a service that answers every call gives a completed run with one call per chunk, in order, no waits, and the reply texts of the answers (`Answers`) as summaries |
| Pipeline.AnsweredSummary | summarization/main.py:132-152 | with every call answered, chunk `k`'s summary is the reply text of call `k`: its stripped text, or "No summary returned" when the text is absent or empty |
| Pipeline.SummarizeCase | summarization/main.py:109-157 | over the whole script: a printed summary is the join of one summary per chunk; a crash names a chunk; each chunk gets at most `max_retries` calls, and `max_retries * len(chunks)` in all; every call carries the normalised-role prompt of a real chunk; an empty text prints the empty summary without calling the service |
| Pipeline.ExampleChunks | summarization/main.py:100-109 | a 17,000-character text is cut into chunks of 8000, 8000 and 1000 characters |
| Pipeline.LawyerExample | summarization/main.py:100-157 | for a 17,000-character text, a lawyer and a service that always answers: three calls in chunk order with the lawyer prompts, no waits, and the reply texts of the three answers joined by blank lines |

## Left out

- Loading the environment and the API key (summarization/main.py:17-27) is not modelled: it is configuration.
- Building the service clients (summarization/main.py:32-50) is not modelled: it is configuration.
- The case search, document fetch, PDF extraction and HTML parsing (summarization/main.py:55-95) are not modelled. They are network I/O and foreign libraries, and the model starts from the extracted case text.
- `generate_content` is the `Service` parameter. The model makes no assumption about how its answers depend on the prompt. So a run records the chunk each call was for, and the prompt is recovered from it.
- `time.sleep` is not performed. Its durations are returned in the `waits` lists.
- `input()` and every `print` are not modelled. The typed role is the `rawRole` parameter, and the final output is the `finalSummary` field.
- Text.StripIsTrimmedInfix: `strip()` and `lower()` are modelled on ASCII only. Whitespace is the ASCII part of `str.isspace()`, and only `A`-`Z` are lower-cased. Unicode whitespace such as U+00A0 and non-ASCII case mappings are not modelled.
- Chunker.Chunks: requires `max_chars > 0`. With `max_chars <= 0`, `start` never advances, and `chunk_text` loops forever on a non-empty text. The script always passes 8000.
- Retry.Summarize: requires `max_retries >= 1`. With zero attempts, the source appends no summary for the chunk, and the model does not cover that case. The script fixes `max_retries` at 5.
- Pipeline.SummarizeCase: an escaping exception is modelled as a `Crashed` report. The report gives the chunk being summarized and what happened before the crash. The traceback itself is not modelled.
