# Math-Search-AI-Engine: a Dafny model of the search and verification core

Math-Search-AI-Engine finds exercise material for a mathematical topic. It has two parts:

- **The search engine** (`SearchEngine`). It takes a three-tier search plan and picks queries round-robin across the tiers, up to `max_queries` of them. It sends each query to the search provider, asking for at most ten results, and merges the links it gets back without duplicates.
- **The content processor** (`ContentProcessor`). For each link, it:
  - downloads the page or the PDF, as a list of labelled pages;
  - cuts a budgeted excerpt around the occurrences of the topic and signal keywords;
  - asks a language model whether the excerpt holds exercises on the topic, retrying on rate-limit errors;
  - cleans and parses the model's JSON reply;
  - sends a relevant sample question back to the model for LaTeX repair;
  - keeps the link as a candidate when its score is at least 5 and it contains exercises.

  The candidates are streamed as progress records, followed by a final list sorted by descending score.

This project models these decisions in Dafny and proves their properties. Each module follows one part of the program:

| module | file | models |
|---|---|---|
| `Common` | `common.dfy` | `Option`, `Min`, `Max` |
| `Text` | `text.dfy` | the Python string operations used: `strip`, `split`, `lower` (ASCII), `find`/`rfind`, `replace`, `rsplit(sep, 1)[0]` |
| `Documents` | `documents.dfy` | pages with a label (a page number or "Web") and the document type |
| `ContextExtractor` | `context_extractor.dfy` | `_extract_relevant_context_with_pages` |
| `ResponseText` | `response_text.dfy` | `_clean_json_text`, the fence removal of `_refine_latex_with_ai`, the `\{.*\}` fallback span |
| `Retry` | `retry.dfy` | `_call_gemini_with_retry` |
| `Fetcher` | `fetcher.dfy` | the decisions of `fetch_content` |
| `Verification` | `verification.dfy` | `verify_relevance`, `_refine_latex_with_ai`, `_process_single_url` |
| `Pipeline` | `pipeline.dfy` | `process_links_stream`, `process_links` |
| `Search` | `search.dfy` | `_search_single_query`, `execute_search_plan` |

Code that updates state step by step is modelled as imperative methods. Each such method is proved equal to a specification function, and the properties are proved about that function. These methods are:

- the extractor's loops;
- the retry loop;
- the PDF page loop;
- the stream loop;
- the round-robin loop;
- the URL union.

The cleaning, parsing and acceptance decisions are expressions, so they are modelled as functions.

Everything outside the program is an input to the model:

- the model service;
- `json.loads`;
- the PDF and HTML libraries;
- the search provider;
- the existence of the prompt files;
- the order in which the worker threads complete.

A PDF that cannot be parsed, or has no pages, is read as HTML (`backend/content_processor.py:206-216`); see `Fetcher.UnreadablePdfFallsBackToHtml`.

## Model

| member | source | states |
|---|---|---|
| `ContextExtractor.Occurrences` | backend/content_processor.py:141 | every reported position is an occurrence of the term at or after the start, and successive matches do not overlap (`re.finditer`) |
| `ContextExtractor.OccurrencesComplete` | backend/content_processor.py:141 | no occurrence is missed: every position where the term occurs lies inside a reported match |
| `ContextExtractor.OccurrencesMatchAt` | backend/content_processor.py:141 | a match at the current position is reported, and the search resumes after it |
| `ContextExtractor.OccurrencesNoMatchAt` | backend/content_processor.py:141 | without a match at the current position, the search resumes one position later |
| `ContextExtractor.OccurrencesEmptyIff` | backend/content_processor.py:140-141 | the match list is empty exactly when the `term in lowered_text` test fails |
| `ContextExtractor.AllOccurrencesEmptyIff` | backend/content_processor.py:138-143 | a page yields indices exactly when some term of three or more characters occurs in its lower-cased text |
| `ContextExtractor.ShortTermsIgnored` | backend/content_processor.py:139 | terms shorter than three characters contribute nothing: dropping them leaves the indices unchanged |
| `ContextExtractor.AllOccurrencesHas` | backend/content_processor.py:138-141 | every occurrence of every long term is among the page's indices |
| `ContextExtractor.AllOccurrencesSound` | backend/content_processor.py:138-143 | every index is the start of an occurrence of some term of three or more characters in the lower-cased text |
| `ContextExtractor.SortAscending` | backend/content_processor.py:145 | `indices.sort()`: the result is ascending and a permutation of the input |
| `ContextExtractor.InsertAscending` | backend/content_processor.py:145 | inserting into an ascending list keeps it ascending and adds exactly that element |
| `ContextExtractor.WindowsClamped` | backend/content_processor.py:147-151 | for in-bounds sorted indices, each window is `[max(0, idx-200), min(len, idx+window))`, lies within the text, is well formed and the windows are sorted by start |
| `ContextExtractor.MergeFrom` | backend/content_processor.py:155-162 | the sweep from a current range yields at least one range, starting where the current one starts, and no more ranges than it was given |
| `ContextExtractor.MergeFromSeparated` | backend/content_processor.py:155-162 | the merged ranges are in order and pairwise disjoint |
| `ContextExtractor.MergeFromContains` | backend/content_processor.py:155-162 | every input window lies inside some merged range |
| `ContextExtractor.MergeFromExact` | backend/content_processor.py:155-162 | every position covered by a merged range is covered by an input window (which is returned) |
| `ContextExtractor.MergeFromWithin` | backend/content_processor.py:155-162 | merging keeps every range inside `[0, len(text)]` |
| `ContextExtractor.MergeWithin` | backend/content_processor.py:153-162 | merging keeps every range inside `[0, len(text)]` |
| `ContextExtractor.MergeCorrect` | backend/content_processor.py:153-162 | merged ranges are sorted and disjoint, every window lies in one, they cover exactly the positions the windows cover, there are no more of them than windows, and none exactly when there are no windows |
| `ContextExtractor.MergeFromWindow` | backend/content_processor.py:155-162 | every range the sweep emits holds the current range or one of the later ones |
| `ContextExtractor.MergedHoldsWindow` | backend/content_processor.py:153-162 | every merged range holds one of the windows |
| `ContextExtractor.MergeExample` | backend/content_processor.py:157-161 | `[(0,100),(50,180),(300,400)]` merges to `[(0,180),(300,400)]` |
| `ContextExtractor.TouchingRangesStaySeparate` | backend/content_processor.py:157 | touching ranges are not merged, because the test is a strict `<` |
| `ContextExtractor.PageIndices` | backend/content_processor.py:135-145 | the sorted indices of a page are ascending positions inside its text |
| `ContextExtractor.PageIndicesSound` | backend/content_processor.py:135-145 | every sorted index of a page is where a search term of three or more characters occurs in its lower-cased text |
| `ContextExtractor.PageRanges` | backend/content_processor.py:135-162 | a page's merged ranges lie inside its text and are sorted and disjoint |
| `ContextExtractor.PageRangesEmptyIff` | backend/content_processor.py:133-143 | a page has ranges exactly when its text is non-empty and some long term occurs in it |
| `ContextExtractor.MatchesCovered` | backend/content_processor.py:138-162 | every position where a long term occurs is covered by a merged range of its page |
| `ContextExtractor.PageRangesFromMatches` | backend/content_processor.py:135-162 | every range of a page holds the window `[max(0, idx-200), min(len, idx+window_size))` of one of its indices, and that index is where a search term of three or more characters occurs |
| `ContextExtractor.NewlinesToSpaces` | backend/content_processor.py:166 | `.replace('\n', ' ')` keeps the length, leaves no newline and keeps every other character |
| `ContextExtractor.PageChunks` | backend/content_processor.py:164-167 | one chunk per merged range, labelled with its page, without newlines |
| `ContextExtractor.AllChunks` | backend/content_processor.py:130-167 | no chunk of any page contains a newline |
| `ContextExtractor.AllChunksEmptyIff` | backend/content_processor.py:130-167 | there are chunks exactly when some page has a match |
| `ContextExtractor.BodyLengthAppend` | backend/content_processor.py:168 | `total_len` of two runs of chunks adds up |
| `ContextExtractor.BudgetedShape` | backend/content_processor.py:164-168 | the chunks taken are a prefix of all chunks, the loop stops only once the total exceeds 25000, and at least one chunk is taken when there is one and the budget is not yet spent |
| `ContextExtractor.BudgetedSnoc` | backend/content_processor.py:165 | one more chunk is taken exactly when everything before it was taken and the total is at most 25000 |
| `ContextExtractor.BudgetRespected` | backend/content_processor.py:165 | every chunk taken was taken while the total before it was at most 25000 |
| `ContextExtractor.BudgetOvershoot` | backend/content_processor.py:164-168 | the total of the chunks taken is at most 25000 plus the length of the last one |
| `ContextExtractor.ContextChunks` | backend/content_processor.py:125-168 | the chunks of the excerpt contain no newline |
| `ContextExtractor.ContextChunksBudget` | backend/content_processor.py:125-168 | the excerpt's chunks are a prefix of the chunks of all pages, in order; fewer than all are taken only when they total more than 25000; each was taken while the chunks before it totalled at most 25000, so the whole is at most 25000 plus the last chunk; there are none exactly when no page matches |
| `ContextExtractor.Render` | backend/content_processor.py:167 | every chunk adds text to `final_context` |
| `ContextExtractor.Fallback` | backend/content_processor.py:170-175 | the fallback excerpt is never empty |
| `ContextExtractor.ExtractContext` | backend/content_processor.py:121-177 | the excerpt is empty exactly when there are no pages |
| `ContextExtractor.FallbackExactlyWhenNothingMatches` | backend/content_processor.py:170-175 | when no page matches, the excerpt is the Intro of the first page's `text[:3000]` followed, for more than one page, by the End of the last page's `text[:2000]`; otherwise it is the rendered chunks |
| `ContextExtractor.EmptyPageContributesNothing` | backend/content_processor.py:133 | a page with empty text yields no chunk |
| `ContextExtractor.FeedSnoc` | backend/content_processor.py:165-168 | while the total is within budget, the next chunk is appended and counted |
| `ContextExtractor.FeedSaturated` | backend/content_processor.py:165 | once the total exceeds 25000, no further chunk changes the excerpt |
| `ContextExtractor.FeedIsBudgeted` | backend/content_processor.py:164-168 | the running `final_context` and `total_len` are the rendering and the total of the budgeted chunks |
| `ContextExtractor.CollectIndices` | backend/content_processor.py:136-141 | the term loop computes the page's indices |
| `ContextExtractor.MergeWindows` | backend/content_processor.py:153-162 | the `curr_start`/`curr_end` sweep computes the merge |
| `ContextExtractor.BuildWindows` | backend/content_processor.py:146-151 | the loop builds one clamped window per index |
| `ContextExtractor.ComputePageRanges` | backend/content_processor.py:135-162 | the loop body computes a page's merged ranges |
| `ContextExtractor.AppendPageChunks` | backend/content_processor.py:164-168 | the chunk loop of a page, with its `break`, feeds that page's chunks |
| `ContextExtractor.AppendAllPages` | backend/content_processor.py:130-168 | the page loop feeds all chunks of all pages |
| `ContextExtractor.ExtractRelevantContext` | backend/content_processor.py:121-177 | the method computes the excerpt, including the fallback |
| `ResponseText.AfterFirstLine` | backend/content_processor.py:44-46 | the text after the first newline is a suffix of the input |
| `ResponseText.StripFence` | backend/content_processor.py:43-48 | removing the fences never lengthens the text |
| `ResponseText.CleanJsonText` | backend/content_processor.py:40-52 | the cleaned text has no whitespace at either end |
| `ResponseText.DoubleIsEscaped` | backend/content_processor.py:50 | doubling every backslash is the escape rule with no exception |
| `ResponseText.EscapedHead` | backend/content_processor.py:50-51 | after the rule, no text starts with a backslash followed by a character that is not a backslash and that the rule does not keep |
| `ResponseText.UndoubleStep` | backend/content_processor.py:51 | each un-doubling replacement adds one character to the set of kept escapes |
| `ResponseText.ReplaceChainIsEscaped` | backend/content_processor.py:50-51 | the four replacements together double every backslash except those starting `\n`, `\t` or `\"` |
| `ResponseText.CleanJsonIsEscaped` | backend/content_processor.py:40-52 | the cleaner is: strip, remove the fences, apply the escape rule, strip again |
| `ResponseText.EscapedNoBackslash` | backend/content_processor.py:50-51 | text without a backslash is unchanged by the replacements |
| `ResponseText.EscapedAppend` | backend/content_processor.py:50-51 | the rule works piece by piece when a piece does not end in a backslash |
| `ResponseText.StepOfAppend` | backend/content_processor.py:50-51 | the first step of the rule on such a piece stays within it |
| `ResponseText.EscapeDoublesLatexBackslash` | backend/content_processor.py:50-51 | a backslash before anything other than `n`, `t`, `"` or a backslash comes out doubled |
| `ResponseText.EscapeKeepsJsonEscape` | backend/content_processor.py:51 | `\n`, `\t` and `\"` come out as they went in |
| `ResponseText.CleanPlainText` | backend/content_processor.py:40-52 | text without backslashes and fences comes back only stripped |
| `ResponseText.CleanFencedReply` | backend/content_processor.py:42-52 | a reply fenced as ```` ```lang\n ... ``` ```` is cleaned as its body alone |
| `ResponseText.UnwrapFence` | backend/content_processor.py:43-48 | the first line of a fenced reply ends after the language tag, and the trailing fence is cut off |
| `ResponseText.FencedFirstLine` | backend/content_processor.py:44-46 | for a language tag without a newline, the text after the first line of a fenced reply is its body followed by the closing fence |
| `ResponseText.CutTrailingFence` | backend/content_processor.py:47-48 | cutting at the last fence of a text that ends with one gives back the text before it |
| `ResponseText.FracExample` | backend/content_processor.py:50-51 | LaTeX `\frac` becomes `\\frac` |
| `ResponseText.UnfenceReply` | backend/content_processor.py:108-117 | the repaired text has no whitespace at either end |
| `ResponseText.UnfenceWrapped` | backend/content_processor.py:110-117 | a fenced repair reply is reduced to its stripped body |
| `ResponseText.UnfenceUnfenced` | backend/content_processor.py:110-117 | a reply that does not start with a fence is only stripped, even when it ends with one |
| `ResponseText.CleanTrailingFence` | backend/content_processor.py:42-52 | the cleaner drops a trailing fence even when the text does not start with one (e.g. a reply `{}` followed by a fence becomes `{}`) |
| `ResponseText.UnfenceKeepsTrailingFence` | backend/content_processor.py:108-117 | the repair step keeps a trailing fence when the reply does not start with one |
| `ResponseText.CleanPlainEscapes` | backend/content_processor.py:50-52 | stripped text without backslashes passes the replacements unchanged |
| `ResponseText.BraceSpan` | backend/content_processor.py:258-259 | the fallback span starts with `{` and ends with `}` |
| `ResponseText.BraceSpanExists` | backend/content_processor.py:258-259 | the span exists exactly when some `{` is followed later by a `}` |
| `ResponseText.BraceSpanBounds` | backend/content_processor.py:258-259 | the span runs from the first `{` to the last `}` (greedy, across lines) |
| `Retry.CallWithRetry` | backend/content_processor.py:54-84 | the while loop makes the calls and waits of the retry specification |
| `Retry.RetryFromShape` | backend/content_processor.py:62-79 | from any attempt: no call once the retries are used up, one wait fewer than calls, and the i-th wait is `5 * 2^(attempt+i)` |
| `Retry.RetryShape` | backend/content_processor.py:59-84 | at most `max_retries+1` calls, waits of 5, 10, 20, ... between them, and a negative `max_retries` makes no call and returns None |
| `Retry.RetryFromAfterQuota` | backend/content_processor.py:69-79 | rate-limit errors only move the attempt on |
| `Retry.QuotaAlwaysHit` | backend/content_processor.py:69-73 | when every call hits the quota: exactly `max_retries+1` calls, `max_retries` waits, and None |
| `Retry.FirstReplyReturned` | backend/content_processor.py:65 | the first reply is returned at once, after the quota errors before it |
| `Retry.OtherErrorStops` | backend/content_processor.py:80-83 | any other error returns None with no further call |
| `Retry.ReplyComesFromACall` | backend/content_processor.py:62-65 | a returned reply is what the last call, within the allowed number, returned |
| `Fetcher.ScanPages` | backend/content_processor.py:201-204 | the page loop keeps pages numbered from 1 in increasing order, within the pages read, none empty |
| `Fetcher.ScanStaysRaised` | backend/content_processor.py:201-207 | after an extraction raises, later pages are not read |
| `Fetcher.ScanKeepsNonEmptyPages` | backend/content_processor.py:202-204 | without a raise, every non-empty page is kept with its 1-based number |
| `Fetcher.ScanReadableThenFailing` | backend/content_processor.py:201-207 | a readable non-empty first page followed by a raising second page leaves page 1 collected and the loop marked as raised |
| `Fetcher.PartialPdfLeaksIntoWebResult` | backend/content_processor.py:200-216 | as written, for any URL not denied, a PDF whose first page extracts a non-empty text and whose second page raises, with an HTML text of more than 200 characters, gives a "WEB" result of two pages, the PDF page 1 in front of the "Web" page |
| `Fetcher.FetchContract` | backend/content_processor.py:179-221 | a denied URL or a failed request gives `([], None)`; a PDF result has at most 10 pages numbered within 1..10, ascending and non-empty; a WEB result is one "Web" page of more than 200 and at most 30000 characters; a result without a type has no pages |
| `Fetcher.UnreadablePdfFallsBackToHtml` | backend/content_processor.py:196-216 | a PDF that cannot be parsed or has no pages is read as HTML |
| `Fetcher.PdfKeepsNonEmptyPages` | backend/content_processor.py:200-205 | a readable PDF keeps every non-empty page among its first ten |
| `Fetcher.NeverRaises` | backend/content_processor.py:201-204 | without a failing extraction, the page loop completes |
| `Fetcher.AsWrittenDiffersOnlyByLeak` | backend/content_processor.py:200-216 | outside a WEB result the function as written and the corrected one agree; a WEB result as written is the corrected single page "Web" behind PDF pages numbered within 1..10, ascending and non-empty, which the page loop collected before it raised |
| `Fetcher.FetchContent` | backend/content_processor.py:179-221 | the method, with its page loop, computes the function as written |
| `Verification.ParseResponseCases` | backend/content_processor.py:253-263 | the strict parse of the cleaned reply wins; otherwise the brace span of the raw reply is parsed; otherwise there is no result |
| `Verification.NoBracesNoResult` | backend/content_processor.py:257-263 | a reply that fails the strict parse and has no `{...}` span gives no result |
| `Verification.RefineLatex` | backend/content_processor.py:86-119 | a sample shorter than 5 characters, or without a prompt file, is kept; otherwise the result is the sample or a stripped reply |
| `Verification.RefineUnwrapsFencedReply` | backend/content_processor.py:104-117 | when the first repair call replies with a fenced block, the repaired sample is its stripped body |
| `Verification.RefineKeepsSampleOnQuota` | backend/content_processor.py:104-106 | when every repair call hits the quota, the sample is kept |
| `Verification.RefineOnlyWhenRelevant` | backend/content_processor.py:265-269 | the repair runs only on a result with truthy `is_relevant` and `contains_exercises`, and changes no field but `sample_question` |
| `Verification.VerifyRelevance` | backend/content_processor.py:223-232 | no pages or no prompt file gives None |
| `Verification.VerifyUsesReply` | backend/content_processor.py:223-271 | non-empty pages always give an excerpt, so the result is decided by the model's reply: parsed, then refined |
| `Verification.VerifyGivesUpOnQuota` | backend/content_processor.py:247-249 | when all six verification calls hit the quota, the result is None |
| `Verification.Accept` | backend/content_processor.py:283-296 | a candidate carries the link, the document type and a score of at least 5 |
| `Verification.AcceptIff` | backend/content_processor.py:285-290 | a result is accepted exactly when its score (0 when missing) is an integer of at least 5 and `contains_exercises` (False when missing) is truthy |
| `Verification.AcceptIgnoresRelevance` | backend/content_processor.py:284-290 | `is_relevant` is not consulted by the filter |
| `Verification.AcceptDefaults` | backend/content_processor.py:285-295 | a missing score rejects; missing fields default to "Unknown", "N/A" and "" |
| `Verification.ProcessSingleUrl` | backend/content_processor.py:277-300 | a candidate carries its link and a score of at least 5 |
| `Verification.LeakKeepsCandidate` | backend/content_processor.py:279-282 | calling `fetch_content` as written, whose WEB result may carry leaked PDF pages, gives the same candidate as the corrected fetch that `ProcessSingleUrl` uses |
| `Verification.NoPagesNoCandidate` | backend/content_processor.py:279-280 | a denied URL, a failed request or an empty fetch yields no candidate |
| `Verification.CandidateHasType` | backend/content_processor.py:279-293 | every candidate comes from a PDF or a web document |
| `Pipeline.InsertByScore` | backend/content_processor.py:341 | inserting into a list sorted by descending score keeps it sorted and adds exactly that candidate |
| `Pipeline.SortByScore` | backend/content_processor.py:341 | the final list is sorted by descending score and is a permutation of the candidates found |
| `Pipeline.InsertKeepsOrderOfEquals` | backend/content_processor.py:341 | insertion keeps the order among candidates of equal score |
| `Pipeline.SortIsStable` | backend/content_processor.py:341 | the sort is stable: for every score, the candidates with that score keep their completion order |
| `Pipeline.Found` | backend/content_processor.py:322-325 | no more candidates than completed links |
| `Pipeline.FoundCounts` | backend/content_processor.py:322-325 | every candidate returned is kept, as often as it was returned, and nothing else |
| `Pipeline.FoundStep` | backend/content_processor.py:318-335 | each completion raises `found` by one exactly when it returned a candidate |
| `Pipeline.FoundGrows` | backend/content_processor.py:318-335 | `found` never decreases |
| `Pipeline.ProgressAt` | backend/content_processor.py:318-335 | after k completions there are k progress records, the i-th with `current` i+1 |
| `Pipeline.StreamShape` | backend/content_processor.py:302-344 | N links give N progress records, the k-th with `current` k, `total` N and the candidates found so far, then one final record with the sorted candidates |
| `Pipeline.LastProgressMatchesFinal` | backend/content_processor.py:330-344 | the last progress record counts as many candidates as the final record holds |
| `Pipeline.EmptyStream` | backend/content_processor.py:302-344 | no link gives a single empty final record |
| `Pipeline.FinalIndependentOfOrder` | backend/content_processor.py:318-341 | the candidates of the final record do not depend on the completion order |
| `Pipeline.ProcessLinksStream` | backend/content_processor.py:302-344 | the generator yields the stream specification |
| `Pipeline.ProcessLinks` | backend/content_processor.py:346-352 | `process_links` returns the data of the final record: the sorted candidates |
| `Search.Links` | backend/search_engine.py:40 | the links of the items, one per item, in order |
| `Search.SearchSingleQueryResult` | backend/search_engine.py:24-48 | for the reply to a request for `min(num_results, 10)` results: items that all have a link give exactly those links, in order; an item without a link gives `[]`; so a non-empty result is always the links of the reply |
| `Search.ClampSaturates` | backend/search_engine.py:31 | asking for ten or more results is the same as asking for ten |
| `Search.FailureYieldsNothing` | backend/search_engine.py:26-48 | a missing service or a raised error yields `[]` |
| `Search.RoundsLength` | backend/search_engine.py:67-70 | n rounds hold `min(n,|t1|) + min(n,|t2|) + min(n,|t3|)` queries |
| `Search.InterleaveLength` | backend/search_engine.py:64-70 | the interleaving has `|t1| + |t2| + |t3|` queries |
| `Search.RoundsMultiset` | backend/search_engine.py:67-70 | n rounds hold exactly the first n queries of each tier |
| `Search.InterleaveIsPermutation` | backend/search_engine.py:64-70 | the interleaving is a permutation of `t1 + t2 + t3` |
| `Search.RoundAt` | backend/search_engine.py:68-70 | round i holds, in tier order, the i-th query of each tier that has one |
| `Search.SlotInRound` | backend/search_engine.py:67-70 | the i-th query of a tier sits at its slot within the first i+1 rounds |
| `Search.SlotHolds` | backend/search_engine.py:64-70 | the i-th query of a tier sits at its slot of the interleaving |
| `Search.TierOrderKept` | backend/search_engine.py:64-70 | queries of the same tier keep their relative order |
| `Search.SlotsDistinct` | backend/search_engine.py:64-70 | different queries occupy different slots |
| `Search.InterleaveExample` | backend/search_engine.py:62-70 | tiers of sizes 3, 1, 2 give T1, T2, T3, T1, T3, T1 |
| `Search.InterleaveTiers` | backend/search_engine.py:64-70 | the loop builds the interleaving |
| `Search.SliceTo` | backend/search_engine.py:73 | `[:max_queries]` is a prefix of `min(max_queries, total)` elements, or for a negative limit it drops that many from the end |
| `Search.SelectQueries` | backend/search_engine.py:54-73 | an absent or empty plan selects no query |
| `Search.SelectedCount` | backend/search_engine.py:58-73 | with a non-negative limit, exactly `min(max_queries, total)` queries are selected, the first ones of the interleaving, and missing tiers count as empty |
| `Search.UnionMember` | backend/search_engine.py:75-91 | a link is in the union exactly when some query's list holds it |
| `Search.UnionOrderIrrelevant` | backend/search_engine.py:88-91 | the union does not depend on the order in which the queries complete |
| `Search.SearchAll` | backend/search_engine.py:83-86 | one result list per selected query, each from `_search_single_query` |
| `Search.ListOf` | backend/search_engine.py:97 | `list(unique_urls)` holds each link of the set once |
| `Search.ExecuteSearchPlan` | backend/search_engine.py:50-99 | the result has no duplicates and is exactly the union of the per-query lists of the selected queries; an absent or empty plan gives `[]` |

## Left out

- Network access (`requests.get` and the search API client), the language-model SDK, `PdfReader`, BeautifulSoup, `json.loads` and the regular-expression engine are foreign code. Their results are inputs: `Fetcher.HttpResponse`, `Retry.CallResult`, `Verification.Services`, `Search.Provider`.
- Reading the prompt files and filling their placeholders (`backend/content_processor.py:91-101,229-243`) is file I/O. Only the existence of each file is modelled. Therefore `Verification.VerifyRelevance` does not take the document type or the difficulty: they only reach the prompt.
- `Retry.CallWithRetry`: the random jitter `random.uniform(1, 3)` and the sleep itself are not modelled. Only the deterministic part of each wait is recorded.
- `ResponseText.UnfenceReply` and `Verification.VerifyRelevance`: `response.text` raising, for a blocked reply, is not modelled. It would make the sample kept, or the verification return None.
- `Text.Lower`: only ASCII letters are lower-cased, so the length is preserved. Python's Unicode `lower()` can change the length. Upper-case non-ASCII letters are kept: a Vietnamese keyword written "BÀI TẬP" becomes "bÀi tẬp", so the signal keyword "bài tập" does not match it in the model, although it does in the program.
- `Text.Strip` and `Text.Words`: only ASCII whitespace is stripped or split on. Python's `strip()` and `split()` also treat `\x1c`-`\x1f` and the Unicode spaces as whitespace.
- `Verification.ProcessSingleUrl`: uses the corrected `Fetcher.FetchContentResult`, not `fetch_content` as written. In the program, the leaked PDF pages of a partly unreadable PDF reach the verification prompt. The prompt is not modelled, and the verifier's replies are inputs that do not depend on the pages' text (`Verification.VerifyIgnoresPageText`), so `Verification.LeakKeepsCandidate` proves the candidate is the same either way. What the leaked pages would change in a real model's answer is not captured.
- `Verification.Accept`: a floating-point score is not modelled. JSON numbers are integers here, and a non-integer score is treated like the other non-integers.
- The thread pools (`ThreadPoolExecutor`, `as_completed`) are concurrency. Their effect is an arbitrary completion order, given as an input in `Pipeline.ProcessLinksStream`. In `Search.ExecuteSearchPlan` the lists are merged in query order, and `Search.UnionOrderIrrelevant` shows that the order does not matter.
- `Search.ListOf`: the order of `list(set)` is unspecified in Python. The method picks the elements in an arbitrary order.
- The worker exception handlers in `process_links_stream` (line 328) and `execute_search_plan` (line 92) never run: `_process_single_url` and `_search_single_query` catch every exception themselves.
- Logging with `print`, the `SearchEngine` constructor (environment variables), `backend/query_generator.py` and `app.py` are not part of this model.

## Findings

| source | as written | input that shows it | evidently intended | confidence | as-written member | corrected member |
|---|---|---|---|---|---|---|
| backend/content_processor.py:200-216 | when the text extraction of a later PDF page raises, the pages already appended stay in `pages_data`, the `except: pass` falls through to the HTML branch, and they are returned in front of the "Web" page, typed "WEB" | a PDF response whose page 1 extracts a non-empty text such as "p1" and whose page 2 raises, with an HTML text of 201 characters: the result is `[{"page": 1, ...}, {"page": "Web", ...}]` with type "WEB" | a PDF that cannot be read completely is read as HTML alone: one "Web" page | medium, not executed | `Fetcher.PartialPdfLeaksIntoWebResult` | `Fetcher.FetchContract` |
