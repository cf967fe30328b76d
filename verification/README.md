# Verified model of the knowledge assistant

A Dafny model of the parts of the knowledge assistant whose claims range over all
inputs or all runs: the ingestion of documents, the search over their chunks, the chat
turn from the prompt to the chips in the browser, the money it costs, and the sessions
and limits around it. `dafny verify dfyconfig.toml` checks it.

## What is modelled

* `Text`, `Sorting`, `Sequences`, `Wrappers`: Python and JavaScript text operations, stable
  sorting, regrouping of sequences, options and results.
* `Chunking`, `Packings`, `PackingSizes`, `Rebuilding`: the sliding-window chunker. The packing
  loop is kept as it is, with its running counter; its result is characterised as the greedy
  packing of the words, and that characterisation determines it.
* `Sse`: the frame printer of the server and the incremental parser of the browser, which
  sees the stream in arbitrary pieces. The parser implements a part of section 9.2.6
  ("Interpreting an event stream") of the WHATWG HTML Standard.
* `Budget`: prices, stored costs and the budget alert. Money is counted in units of 1e-8
  dollars, which all prices are multiples of; stored costs are multiples of 100 units and
  budgets of 1,000,000. First serial months, then months in which transactions read the total
  and commit in any order.
* `RateLimit`: replicas that share one Redis counter. The clock read and INCR are one step,
  EXPIRE is another that may come late or never.
* `Embeddings`: signed feature hashing over the reals, with a hash and a square root
  known only by their types and its defining property.
* `Retrieval` and `Hits`: reciprocal rank fusion over the reals, and hybrid search.
* `Citations`: the numbered prompt, the offline answer, the citation extractor and the
  chip splitter.
* `Ingestion`: a small database with atomic commits, the three transactions of a task, and
  all interleavings of tasks, failures and deletions at the granularity of transactions.
* `Auth`, `Session`, `Retries` and `SessionLoss`: refresh-token rotation on the server, the single-flight
  refresh of one browser tab, and the two-party protocol of both with messages in between.
* `Chat` and `Stream`: a chat turn from the answer pipeline over the two transactions of the
  endpoint and the stream to the handlers in the browser.

Code that changes state step by step is a method or a class, proved against a function of its
inputs or of its old state; the results over runs are lemmas about those functions.

## Where the code and its description differ

* The chunk `size` (libs/core/core/chunking.py:37) is not a bound on chunks: `added` counts a
  separator before the flush, and a word is put behind the overlap tail without a second test.
  After the first flush the counter is one too high, so later chunks are packed to one
  character less. `PackingSizes.SizeSafety` has the exact condition.
* README.md:284-290 of the repository promises exactly one alert per month. There are at most
  one in a serial month, and none if the passing event lands on the budget by rounding
  or is an embedding (`Budget.AlertsWhenPassing`); overlapping transactions may send as many as
  overlap (`Budget.AlertsReachConcurrency`).
* services/web/src/api/client.ts:30 says that an access token is refreshed exactly once even if
  several requests are answered 401 concurrently. At most one refresh is under way at a time, but
  calls sent under one pair may cause several refreshes (`Session.TwoRefreshesForOnePair`): a
  401 starts one more exactly when it arrives after the creator of the last one has gone on
  (`Session.SecondRefreshExactly`, `Session.RefreshStartsExactly`).
* services/web/src/api/chat.ts:61-75 has a refresh of its own outside the single flight
  (`Session.ChatRefreshCollides`), and it and lost replies are the two things that make the server
  refuse a token for having been exchanged (`Session.ExcusedExactly`).
* A refresh may also be refused by the rate limiter, and the tab then drops a token that is still
  good (`SessionLoss.SessionLostAtOnce`, `Session.ThrottlingDropsTheSession`).
* services/web/src/api/client.ts:43-49 clears or replaces whatever is stored when the answer
  arrives, and not only the token it presented: a sign-in during a refresh is undone by any answer to it
  (`SessionLoss.SessionLostExactly`, `SessionLoss.RefusalDropsNewSession`), and so is a sign-out
  if the refresh succeeds (`SessionLoss.SignedOutExactly`, `SessionLoss.RefreshUndoesSignOut`).
* libs/core/core/rag/prompts.py:56-57 says that markers outside the range of sources are ignored.
  Python's `int` raises on more than 4300 digits, so such a marker ends the turn without a stored
  answer (`Citations.ExtractCitations`, `Citations.LongMarkerRaises`).
* The rotation of services/api/src/api/routers/auth.py:141-157 reads the row without a lock, so a
  refresh token is used once in serial runs only (`Auth.DoubleGrantsOverlap`).

## Model

| member | source | states |
|---|---|---|
| `Text.JoinSplit` | services/web/src/api/chat.ts:27 | splitting at a character never leaves it inside a piece, and joining the pieces with it gives the text back, for every text |
| `Text.SplitJoin` | services/web/src/api/chat.ts:27-32 | joining pieces without the separator and splitting again gives the pieces back |
| `Text.NormalizeIsJoin` | libs/core/core/chunking.py:16-18 | the normal form of every text is its maximal runs of non-space characters joined by single spaces |
| `Text.WordsOfJoin` | libs/core/core/chunking.py:16-31 | words joined by single spaces are found again, so normalising is idempotent and splitting the normal form gives the words |
| `Text.WordsAreRuns` | libs/core/core/chunking.py:16-31 | every text is its words, each a run of characters without white space, with white space between them: no character and no word is lost |
| `Text.WordsExact` | libs/core/core/chunking.py:16-31 | and no other list of words has that property |
| `Text.RunsUnique` | libs/core/core/chunking.py:16-31 | a text has one list of maximal runs only, whatever the characters of a word are |
| `Text.StripExact` | libs/core/core/providers/llm.py:73 | stripping removes white space from both ends, all of it and nothing else |
| `Text.ParseDecimalOfDecimal` | libs/core/core/rag/prompts.py:46-62 | a marker number printed into the prompt is read back as the same number |
| `Text.Positional` | libs/core/core/rag/prompts.py:62 | numerals are read positionally in base ten, most significant digit first |
| `Chunking.EstimateTokens` | libs/core/core/chunking.py:11-13 | the estimate is at least one, and a quarter of the length rounded down from four characters on |
| `Chunking.CarryTail` | libs/core/core/chunking.py:42-48 | the overlap tail is the longest suffix of the closed chunk whose words cost at most `overlap` at one character more each |
| `Chunking.NextWindow` | libs/core/core/chunking.py:38-50 | a flush appends the closed chunk, opens the next window at its overlap tail, and leaves the counter one too high from then on |
| `Chunking.PackWords` | libs/core/core/chunking.py:31-56 | the packing loop with its counter produces exactly the windows of the greedy packing, although the counter is exact only in the first window |
| `Chunking.ChunkText` | libs/core/core/chunking.py:21-56 | both error cases with their order and message, no chunk for blank text, and otherwise the chunks of the greedy packing of the words |
| `Packings.WindowsCover` | libs/core/core/chunking.py:33-56 | chunks are word windows from the first word to the last with s(i) <= s(i+1) <= e(i) < e(i+1): no word is skipped and every chunk adds one |
| `Packings.PackingUnique` | libs/core/core/chunking.py:36-56 | words, size and overlap determine the packing: any two lists of windows that meet its definition are equal |
| `Packings.ChunkingUnique` | libs/core/core/chunking.py:21-56 | the same for texts and chunks |
| `Packings.Reconstruction` | libs/core/core/chunking.py:27-56 | dropping from each chunk what it repeats and joining with spaces gives the normalised text back |
| `Rebuilding.ChunksRebuildText` | libs/core/core/chunking.py:27-56 | of the chunks of any text, blank or not: each begins with exactly the longest run of final words of the chunk before it that fits in `overlap`, and without what they repeat the chunks joined by spaces are the normalised text |
| `Rebuilding.ChunksAreBounded` | libs/core/core/chunking.py:36-56 | of the chunks of any text, blank or not: the bound on their number and the bound max(size, overlap + longest word) on their length |
| `PackingSizes.ChunkCount` | libs/core/core/chunking.py:36-55 | floor(N / 2) * (size - overlap + 1) <= length of the normalised text + 1 for N chunks |
| `PackingSizes.WindowsAreFull` | libs/core/core/chunking.py:36-52 | how full the windows are: the first has at most `size` characters and its next word would exceed it, a later one at most `size - 1` and its next word would reach `size`; only a window with a single new word may be longer |
| `PackingSizes.ShortWordsApart` | libs/core/core/chunking.py:37-52 | with size 5, "aaaaa bb cc" is cut into three chunks although "bb cc" has five characters |
| `PackingSizes.ChunkSize` | libs/core/core/chunking.py:37-52 | a chunk has at most `size` characters, after the first one at most `size - 1`, or is an overlap tail and one word |
| `PackingSizes.ChunkSizeBound` | libs/core/core/chunking.py:37-55 | every chunk has at most max(size, overlap + longest word) characters |
| `PackingSizes.SizeSafety` | libs/core/core/chunking.py:21-56 | every text with words of at most `longest` characters gets chunks of at most `size` if and only if `longest <= size - overlap`, or `longest <= size` when the overlap is under 2 |
| `PackingSizes.TwelveCharacterChunk` | libs/core/core/chunking.py:37-50 | with size 10 and overlap 4, words of at most 8 characters give a chunk of 12 |
| `Sse.ParseSseFrame` | services/web/src/api/chat.ts:24-33 | the last `event: ` line names the event, `message` without one; the `data: ` lines are joined by line breaks; a frame without them is dropped |
| `Sse.FrameExact` | services/web/src/api/chat.ts:24-33 | a frame is dropped if and only if no line begins with `data: `; its data is what follows on all such lines, in order and joined by line breaks; its event is named by the last line that begins with `event: `, and is `message` without one |
| `Sse.PrintedText` | services/api/src/api/routers/chat.py:36-37 | the printed frame is the line of its event, the line of its data, and a blank line |
| `Sse.IndexOfBlankLine` | services/web/src/api/chat.ts:96-102 | the position is the first blank line of the buffer, or there is none |
| `Sse.ReadFrames` | services/web/src/api/chat.ts:87-105 | after any reads the raw frames and the leftover are the division of the concatenated text at its first blank lines, and the frames handed on are those raw frames parsed, in order |
| `Sse.ReadsUnique` | services/web/src/api/chat.ts:94-103 | frames and leftover depend only on the concatenation of the reads: two results of the loop on one text are equal |
| `Sse.RoundTrip` | services/api/src/api/routers/chat.py:36-37 | any list of printed frames without line breaks in event and payload is divided and parsed back to exactly that list, with nothing left over |
| `Sse.RoundTripExactly` | services/api/src/api/routers/chat.py:36-37 | a printed frame is parsed back if and only if neither its event nor its payload has a line break |
| `Sse.Reassembly` | services/web/src/api/chat.ts:87-104 | however printed frames are cut into reads, the loop hands on exactly those frames and ends with an empty buffer |
| `Sse.EarlierReads` | services/web/src/api/chat.ts:91-104 | what is handed on after the beginning of a stream is a prefix of what is handed on after more of it |
| `Budget.Rounded` | libs/core/core/models.py:287-289 | a stored cost is the nearest multiple of a micro-dollar, halves up, and a cost on that grid is stored unchanged |
| `Budget.Ledger.SetBudget` | services/api/src/api/routers/organizations.py:20-29 | the ledger takes the budget step of the serial month, to which all results on months apply; the month's spend stays |
| `Budget.Ledger.MonthToDateCost` | libs/core/core/usage.py:24-31 | the sum of the stored costs of the month, zero when there are none |
| `Budget.Ledger.RecordUsage` | libs/core/core/usage.py:34-76 | appends one event with the rounded cost, takes the spending step of the serial month, and reports a crossing by the total before it and the unrounded cost |
| `Budget.GenerationCosts` | libs/core/core/providers/pricing.py:15-37 | cost of every number of input and output tokens for each priced model, and zero for any other |
| `Budget.EmbeddingCosts` | libs/core/core/providers/pricing.py:22-44 | the same for embeddings |
| `Budget.TotalIsSum` | libs/core/core/usage.py:24-31 | the month-to-date cost is zero without events and adds up over any division of the events |
| `Budget.OperationExact` | libs/core/core/usage.py:55-76 | what a spending and a budget edit do to the account, and that an edit counts as a raise if and only if the limit in force afterwards is higher or gone |
| `Budget.CrossingReachesBudget` | libs/core/core/usage.py:73-76 | a reported crossing leaves the stored total at or over the budget although the stored cost is rounded |
| `Budget.MissedExactlyByRounding` | libs/core/core/usage.py:55-76 | an event that takes the stored total to or over the budget is reported if and only if rounding up did not make it land exactly on the budget |
| `Budget.AlertsBoundedByRaises` | libs/core/core/usage.py:48-76 | in a serial month with budget edits: alerts <= reports <= budget raises + 1, and <= raises when it starts over its budget |
| `Budget.AtMostOneAlert` | libs/core/core/usage.py:50-54 | with a fixed budget a serial month reports at most one crossing |
| `Budget.NoneWhenOver` | libs/core/core/usage.py:73-76 | a month that starts at or over its budget reports nothing and stays over |
| `Budget.NoneWhenUnder` | libs/core/core/usage.py:73-76 | a month that ends under its budget has reported nothing |
| `Budget.SomeEventPasses` | libs/core/core/usage.py:55-76 | a month that goes from under to at or over its budget has an event that does so |
| `Budget.AlertsWhenPassing` | README.md:284-290 | in such a month the crossing is reported exactly once unless that event lands on the budget by rounding, and it becomes an alert if and only if that event is moreover a generation |
| `Budget.ExactlyOneOnGrid` | README.md:284-290 | when all costs are whole micro-dollars one event reports if and only if the stored total goes from under to at or over the budget |
| `Budget.NoAlertByRounding` | libs/core/core/providers/pricing.py:15-37 | with the real prices two generations exhaust a one-cent budget and no event reports it |
| `Budget.NoAlertByEmbedding` | libs/core/core/ingestion.py:93-108 | an embedding batch passes the budget, is reported, and no alert is sent then or later |
| `Budget.CrossersOverlap` | libs/core/core/usage.py:55-76 | of two committed transactions that report a crossing neither had committed when the other read the total |
| `Budget.AlertsBoundedByConcurrency` | libs/core/core/usage.py:55-76 | in every run with overlapping transactions and aborts, there are no more reports than transactions that were open at one time |
| `Budget.PeakExact` | libs/core/core/usage.py:55-76 | the peak of that bound is the number of open transactions after some step, and no step has more |
| `Budget.AlertsReachConcurrency` | libs/core/core/usage.py:55-76 | any number of overlapping transactions that each cost the budget all report |
| `RateLimit.Redis.Incr` | libs/core/core/ratelimit.py:51 | INCR counts a live key up and creates a missing or expired one at one, without a lifetime |
| `RateLimit.Redis.Expire` | libs/core/core/ratelimit.py:53 | EXPIRE sets the lifetime of a live key and has no effect otherwise |
| `RateLimit.EnforceRateLimit` | libs/core/core/ratelimit.py:32-61 | one uninterrupted request: the verdict from the count before it, the counted key, and its lifetime set exactly at the first count; nothing happens when limiting is off |
| `RateLimit.KeysExpire` | libs/core/core/ratelimit.py:51-53 | in every run each counter has a lifetime that ends within a window, or the command that sets it is still to be sent |
| `RateLimit.ExpireExact` | libs/core/core/ratelimit.py:53 | that command gives a live counter exactly one window from then, keeps its count, and touches no other counter |
| `RateLimit.WindowsAreExact` | libs/core/core/ratelimit.py:46-61 | for any interleaving and any delay or loss of EXPIRE: the counter of the running window is never dropped, equals its requests, and every window has admitted exactly min(requests, limit) |
| `RateLimit.IntervalInTwoWindows` | libs/core/core/ratelimit.py:37-40 | what an interval as long as a window admits was admitted in two consecutive windows |
| `RateLimit.AtMostTwiceTheLimit` | libs/core/core/ratelimit.py:37-40 | any such interval of any run admits at most twice the limit |
| `RateLimit.TwiceTheLimitIsReached` | libs/core/core/ratelimit.py:37-40 | a run reaches twice the limit, for every limit and every window of more than one tick |
| `Embeddings.HashTokens` | libs/core/core/providers/embeddings.py:39-43 | the loop computes the signed bucket vector of the tokens |
| `Embeddings.SumOfSquares` | libs/core/core/providers/embeddings.py:44 | the loop computes the dot product of the vector with itself |
| `Embeddings.Vector` | libs/core/core/providers/embeddings.py:38-50 | the vector of a text is the embedding specified, in both branches |
| `Embeddings.Embed` | libs/core/core/providers/embeddings.py:52-53 | one embedding per text, in order |
| `Embeddings.TokensAreRuns` | libs/core/core/providers/embeddings.py:40 | the tokens of every text are its runs of lower-case letters and digits, in order, with other characters between them |
| `Embeddings.TokensExact` | libs/core/core/providers/embeddings.py:40 | and no other list of tokens is |
| `Embeddings.BucketExact` | libs/core/core/providers/embeddings.py:40-43 | with or without collisions, a bucket holds the number of its tokens with odd sign hash less that of those with even one |
| `Embeddings.EmbeddingExact` | libs/core/core/providers/embeddings.py:44-50 | the embedding times its norm is that bucket vector; when all signs cancel it is one at the bucket of the whole text and zero elsewhere |
| `Embeddings.OccurrencesExact` | libs/core/core/providers/embeddings.py:40 | the counts of the bag of words are multiplicities |
| `Embeddings.UnitNorm` | libs/core/core/providers/embeddings.py:44-50 | every embedding has `dim` components and squared norm one, also without tokens and when signs cancel to zero |
| `Embeddings.SimilarityBounds` | libs/core/core/providers/embeddings.py:38-53 | the dot product of two embeddings is in [-1, 1], and 1 for equal texts |
| `Embeddings.BucketHoldsCount` | libs/core/core/providers/embeddings.py:40-43 | a bucket that one token alone uses holds its signed count |
| `Embeddings.HashedDot` | libs/core/core/providers/embeddings.py:40-43 | without collisions the dot product of two hashed vectors is the sum over the vocabulary of the products of counts |
| `Embeddings.HashingIsBagOfWords` | libs/core/core/providers/embeddings.py:38-44 | without collisions hashing refines bag-of-words, and the product is zero if and only if the vocabularies are disjoint |
| `Embeddings.SimilarityIsSharedVocabulary` | libs/core/core/providers/embeddings.py:38-50 | the same for the normalised vectors of two texts with tokens: similarity is at least zero, and zero if and only if they share no token |
| `Sorting.SortBySorts` | libs/core/core/retrieval.py:116 | sorting by a key keeps every element as often as it occurs and puts them in order of the keys, equal keys in their former order |
| `Sorting.AscendingUnique` | libs/core/core/rag/prompts.py:76 | strictly ascending lists with the same elements are equal |
| `Retrieval.ScoreTable.Add` | libs/core/core/retrieval.py:66 | an id is added behind the others when it is new, and its score grows by the weight of its rank |
| `Retrieval.AddRanking` | libs/core/core/retrieval.py:65-66 | the inner loop adds the weights of one ranking and keeps the order of first appearance |
| `Retrieval.ReciprocalRankFusion` | libs/core/core/retrieval.py:59-67 | the loops and the sort compute the fused list specified |
| `Retrieval.FusedIsExact` | libs/core/core/retrieval.py:59-67 | the result holds each input id once with its summed score, in descending order, ties in order of first appearance |
| `Hits.ScoreOfRank` | libs/core/core/retrieval.py:60-66 | the id at position i of a ranking, from zero, scores 1 / (rrf_k + 1 + i) there, and an id that is missing scores nothing |
| `Hits.ScoresAdd` | libs/core/core/retrieval.py:60-66 | scores add up over the rankings |
| `Hits.FirstSeenOrder` | libs/core/core/retrieval.py:60-66 | the insertion order of the dictionary is the order in which ids first appear in the rankings |
| `Hits.OneRankingStays` | libs/core/core/retrieval.py:57-67 | fusing a single ranking gives that ranking back |
| `Retrieval.HigherScoreFirst` | libs/core/core/retrieval.py:67 | of two ids the one with the higher score comes first |
| `Retrieval.UnanimousOrder` | libs/core/core/retrieval.py:62-67 | for any number of duplicate-free rankings: if `a` precedes `b` in every ranking that contains `b`, then `a` precedes `b` in the result |
| `Retrieval.ShortRankingsAgree` | libs/core/core/retrieval.py:62-67 | for two duplicate-free rankings of at most `rrf_k + 1` ids, every id in both precedes every id in only one |
| `Retrieval.LastInBothTies` | libs/core/core/retrieval.py:66-67 | two rankings of `rrf_k + 2` ids for which that fails |
| `Retrieval.ConsensusExactly` | libs/core/core/retrieval.py:62-67 | rankings of up to n ids always agree in this way if and only if n <= rrf_k + 1 |
| `Retrieval.DefaultsAgree` | libs/core/core/config.py:81-82 | with the default settings (50 candidates, constant 60) they always do |
| `Retrieval.HybridSearch` | libs/core/core/retrieval.py:70-117 | whatever rows come back in whatever order, the hits are the fused ids cut to the limit and restricted to those rows, in fused order and with their scores |
| `Hits.LimitExact` | libs/core/core/retrieval.py:78-89 | how many are selected for every limit: the default without one or with zero, that many for a positive one, all but that many for a negative one |
| `Hits.VectorModeSelects` | libs/core/core/retrieval.py:82-89 | the vector mode selects the beginning of the vector ranking |
| `Hits.LexicalModeSelects` | libs/core/core/retrieval.py:86-89 | the lexical mode selects the beginning of the lexical ranking |
| `Hits.HybridModeSelects` | libs/core/core/retrieval.py:82-89 | the hybrid mode selects by the sum of the two scores, equal ones by their place in the vector ranking and then in the lexical one, and leaves an id out only when the limit is full |
| `Hits.HitsShowRows` | libs/core/core/retrieval.py:105-116 | every hit has the chunk, document, title, index and content of one row of the database and the score of its chunk, and every row of a selected chunk is shown |
| `Hits.CompleteSearch` | libs/core/core/retrieval.py:89-117 | when all rows come back, hit i is the i-th selected chunk with its score and the fields of its row |
| `Retrieval.RowOrderIrrelevant` | libs/core/core/retrieval.py:97-116 | the hits do not depend on the order in which the database returns the rows |
| `Retrieval.CompleteHits` | libs/core/core/retrieval.py:93-116 | when every selected row comes back, hit i is the row of the i-th selected id |
| `Retrieval.LimitsNest` | libs/core/core/retrieval.py:89 | a smaller limit selects a prefix |
| `Retrieval.SmallerLimitIsPrefix` | libs/core/core/retrieval.py:78-117 | two searches of one database that differ in the limit alone: the hits at the smaller one are a prefix of those at the larger one, scores included, whether or not all selected rows still exist |
| `Citations.FindAllIsExact` | libs/core/core/rag/prompts.py:29 | the matches found are exactly the bracketed ASCII numbers of the text (for the anchored pattern, those at line starts), each once and from left to right |
| `Citations.ExtractCitations` | libs/core/core/rag/prompts.py:51-76 | the loop and the sort compute one citation for each hit that the answer mentions, in hit order; they raise if and only if the answer has a marker of more digits than `int` accepts |
| `Citations.CitationsAreExact` | libs/core/core/rag/prompts.py:54-76 | markers strictly increase, are exactly the in-range numbers the answer mentions, and each carries chunk, document and title of its hit and the beginning of its content up to the snippet length |
| `Citations.LongMarkerRaises` | libs/core/core/rag/prompts.py:57-63 | an answer whose out-of-range marker is not ignored but ends the extraction |
| `Citations.EmitWords` | libs/core/core/providers/llm.py:81-84 | the tokens of the stub concatenate to its text, for every text |
| `Citations.MatchAll` | services/web/src/components/chat/CitationText.tsx:5-16 | the matches are all markers of the message, from left to right |
| `Citations.StubMentionsAll` | libs/core/core/providers/llm.py:67-73 | the offline answer to a built prompt mentions every hit, whatever template, titles, contents and question contain |
| `Citations.PromptExact` | libs/core/core/rag/prompts.py:41-48 | the prompt is the template and then one paragraph for each hit, in order and numbered from one, with its title and content; without hits it says so |
| `Citations.QuestionExact` | libs/core/core/providers/llm.py:67 | the question is the content of the last user message, and empty without one |
| `Citations.BracketedExact` | libs/core/core/providers/llm.py:68-69 | the list of markers in the offline answer has exactly the numbers it was made of, in order |
| `Citations.StubExact` | libs/core/core/providers/llm.py:67-74 | the offline answer quotes the stripped question and then repeats the numbers at the line starts of the prompt, in order, or says that there are none |
| `Citations.CitationRoundTrip` | libs/core/core/rag/prompts.py:41-76 | extracting citations from the offline answer to the built prompt gives exactly one citation per hit, in hit order, and raises if and only if the quoted question has a marker, or a line of the prompt begins with one, that is too long to be read |
| `Citations.CitationText` | services/web/src/components/chat/CitationText.tsx:11-23 | the parts show adjacent spans from the first character to the last, every marker with a citation is a chip, every chip is such a marker, and no two texts are adjacent |
| `Citations.NothingLost` | services/web/src/components/chat/CitationText.tsx:16-23 | read one after the other the parts are the message |
| `Citations.ChipsAreCitations` | services/web/src/components/chat/CitationText.tsx:12-23 | with citations extracted from the same message, the chip markers are exactly the citation markers |
| `Citations.StubChips` | services/web/src/components/chat/CitationText.tsx:11-23 | for the offline answer the chips are 1, ..., number of hits |
| `Ingestion.Database.Start` | libs/core/core/ingestion.py:53-62 | the first transaction: a missing document and a missing storage key change nothing, otherwise the document is processing without an error |
| `Ingestion.Database.Store` | libs/core/core/ingestion.py:74-112 | the second transaction commits exactly when vectors match chunks, the rows can be inserted and the database does not fail, and then replaces rows, records usage and marks ready; otherwise nothing has changed |
| `Ingestion.Database.Fail` | libs/core/core/ingestion.py:32-45 | the third transaction: an existing document is failed with the error cut to 1024 characters |
| `Ingestion.Database.Delete` | services/api/src/api/routers/documents.py:142-148 | a document goes with its chunks, and its usage events stay |
| `Ingestion.SumTokens` | libs/core/core/ingestion.py:92 | the token total is the sum of the estimates |
| `Ingestion.RunIngestion` | libs/core/core/ingestion.py:48-117 | a task that nothing interferes with: result, status, rows, usage and the error that is stored and raised, for every combination of missing document, missing key, failed download, extraction, chunking, embedding, wrong vector count and failed commit; the error is that of the first stage that failed |
| `Ingestion.ChunksAreAtomic` | libs/core/core/ingestion.py:74-90 | over every interleaving of tasks, failures and deletions: a live document has exactly the chunks of its most recent committed store transaction, indices 0..n-1, or none; a deleted document has none |
| `Ingestion.StoredContents` | libs/core/core/ingestion.py:80-90 | in every run each row of a document has the content and the vector that its last commit has at that index and the token estimate of that content, and there are no other rows |
| `Ingestion.StoreCommitsExactly` | libs/core/core/ingestion.py:74-112 | a store transaction commits if and only if the database accepts it, there is a vector for every chunk, and there are no chunks or the document is still there; otherwise it changes nothing and its task fails |
| `Ingestion.StoreMakesReady` | libs/core/core/ingestion.py:110-112 | a committed store transaction of a live document leaves it ready and without an error, and ends the task |
| `Ingestion.StatusIsTruthful` | libs/core/core/ingestion.py:53-114 | over every interleaving: READY implies a commit for the document, and PROCESSING implies a task that has not ended |
| `Ingestion.StatusAfterStep` | libs/core/core/ingestion.py:32-62 | status and error of a document after every step, for each kind of step: processing without an error, ready without an error, failed with the beginning of the error, or unchanged |
| `Ingestion.ErrorExactlyWhenFailed` | libs/core/core/ingestion.py:32-45 | over every interleaving a document has an error if and only if it is failed, of at most 1024 characters |
| `Ingestion.IngestionCompletes` | libs/core/core/ingestion.py:48-117 | after every run a new document can be ingested to the end, with exactly its chunks |
| `Ingestion.IngestionFails` | libs/core/core/ingestion.py:113-115 | after every run the work on a new document can fail, and it ends failed with that error |
| `Ingestion.FailedTasksStoreNothing` | libs/core/core/ingestion.py:113-115 | a task that fails has committed nothing |
| `Ingestion.ChunksChangeOnlyByCommit` | libs/core/core/ingestion.py:74-112 | a step changes a row of a document only if it deletes the document or commits its store transaction |
| `Ingestion.DeleteExact` | services/api/src/api/routers/documents.py:142-148 | a deletion takes the document and its rows, and leaves all others and the amounts of its usage |
| `Ingestion.UsageMatchesCommits` | libs/core/core/ingestion.py:91-108 | the embedding events of every run are, in order, one per commit that stored chunks with the sum of their token counts |
| `Ingestion.UsageHasOwners` | libs/core/core/ingestion.py:91-108 | over every interleaving the embedding events belong to the documents of their commits, in order, until those are deleted |
| `Ingestion.TokensOfRows` | libs/core/core/ingestion.py:87-92 | that sum is the sum of the stored token counts |
| `Auth.AuthServer.IssueTokens` | services/api/src/api/routers/auth.py:62-77 | a new row with a fresh token for the user, and nothing else |
| `Auth.AuthServer.Refresh` | services/api/src/api/routers/auth.py:134-158 | refused without effect when throttled, unknown, revoked, expired or without active user; otherwise the presented token is revoked and one successor issued for its user |
| `Auth.AuthServer.Logout` | services/api/src/api/routers/auth.py:161-170 | revokes a token that was not revoked and changes nothing otherwise |
| `Auth.RevocationIsFinal` | services/api/src/api/routers/auth.py:143-170 | no step changes a set revocation time, undoes a redemption or redeems again; a row goes only with its user |
| `Auth.RevocationLasts` | services/api/src/api/routers/auth.py:143-170 | the same over whole serial runs |
| `Auth.GrantExact` | services/api/src/api/routers/auth.py:154-158 | a granted refresh issues a fresh, unrevoked token for the user of the presented one with fourteen days to live, revokes the presented one now, and changes no other row |
| `Auth.SuccessorsKeepUser` | services/api/src/api/routers/auth.py:148-156 | in every serial run a token is exchanged for one of the same user |
| `Auth.LogoutLasts` | services/api/src/api/routers/auth.py:161-170 | a logged-out token is refused in every serial continuation |
| `Auth.LoginExact` | services/api/src/api/routers/auth.py:113-131 | a login of an active user issues one fresh token for that user, any other nothing |
| `Auth.RemovalExact` | services/api/src/api/routers/users.py:88-95 | removing a user takes exactly that user and the tokens of that user away |
| `Auth.ServerRuns` | services/api/src/api/routers/auth.py:134-170 | in every serial run redeemed tokens are revoked, each has one successor, and no two share one |
| `Auth.GrantsAreSuccessors` | services/api/src/api/routers/auth.py:154-158 | the number of times a token is exchanged in a run is one if it has a successor at the end and zero if not |
| `Auth.RedeemedAtMostOnce` | services/api/src/api/routers/auth.py:134-158 | a refresh token is exchanged at most once in every serial run |
| `Auth.DoubleGrantsOverlap` | services/api/src/api/routers/auth.py:141-157 | with overlapping transactions, in any order with logins, logouts, removals and aborts: two refreshes exchange one token only if neither had committed when the other read the row |
| `Auth.OverlapsKeepUser` | services/api/src/api/routers/auth.py:148-157 | overlapping refreshes, too, exchange a token for one of the same user |
| `Auth.CommitExact` | services/api/src/api/routers/auth.py:154-157 | what the commit of a refresh writes, whatever has become of its token since it was read |
| `Auth.DoubleGrantsReached` | services/api/src/api/routers/auth.py:141-157 | any number of overlapping refreshes can all exchange one token |
| `Session.Client.RefreshAccessToken` | services/web/src/api/client.ts:31-36 | join the running refresh, or settle at once without a token, or start one with the stored token |
| `Session.Client.OnReply` | services/web/src/api/client.ts:43-52 | a granted pair is stored, any refusal clears the store, and everyone waiting gets the result |
| `Session.Client.Resume` | services/web/src/api/client.ts:55-59 | only the call that created the promise clears it; success leads to one retry |
| `Session.OrderlyRuns` | services/web/src/api/client.ts:28-92 | in every run of tab and server without the chat refresh and without lost replies the joint invariant holds: single flight, newest tokens, nobody stranded |
| `Session.AtMostOneRefresh` | services/web/src/api/client.ts:32-58 | in every orderly run at most one refresh is under way at a time, and everyone waiting for one is served by it |
| `Session.OneSharedRefresh` | services/web/src/api/client.ts:32-58 | also with lost replies and with the chat refresh, at most one message on its way belongs to the shared refresh |
| `Session.RefreshStartsExactly` | services/web/src/api/client.ts:31-59 | in every run the first 401 of a call starts a refresh if and only if the creators of all refreshes started before have gone on, and presents a token if and only if it also has one |
| `Session.SecondRefreshExactly` | services/web/src/api/client.ts:30-59 | a call sent under the pair of the last refresh starts one more refresh for that pair if and only if its 401 arrives after the creator of that refresh has gone on |
| `Retries.RefreshServesEveryone` | services/web/src/api/client.ts:32-92 | in every run, whatever happens between the end of a refresh and the turn of a call that waited for it, and whether that call started or joined it: it is sent once more, under the pair stored by then, if the refresh was granted, and returns if not; no other call notices |
| `Retries.FirstUnauthorized` | services/web/src/api/client.ts:31-42 | a first 401 joins the refresh under way, or starts one with the stored token, or fails at once without one |
| `Retries.FinalAnswer` | services/web/src/api/client.ts:87-92 | in every run a 401 of a retried call, and any other answer, returns to the page and starts no refresh |
| `Retries.CallsRetryOnce` | services/web/src/api/client.ts:68-92 | in every run a call is sent at most twice and starts at most one refresh, and is marked as retried if and only if it is out for the second time |
| `Retries.ChatRefreshEnds` | services/web/src/api/chat.ts:61-75 | the refresh of the chat client stores a granted pair, ignores any other end, and no waiting call hears of it |
| `Session.TwoRefreshesForOnePair` | services/web/src/api/client.ts:30-59 | an orderly run in which two calls sent under one pair cause two refreshes, which exchange two tokens |
| `Session.StoredTokenIsNewest` | services/web/src/api/client.ts:43-49 | in every orderly run the stored token is the newest of its lineage while no refresh is under way |
| `Session.RefreshFailsOnlyIfExcused` | services/api/src/api/routers/auth.py:143-152 | in every orderly run the server answers a refresh 401 if and only if the token is expired or logged out or its user inactive or removed |
| `Session.ExcusedExactly` | services/web/src/api/client.ts:37-52 | no run of the allowed steps ever has a refresh refused for an earlier exchange if and only if the steps include neither refreshes of the chat client nor lost replies |
| `SessionLoss.SessionLostExactly` | services/web/src/api/client.ts:43-49 | in every orderly run, whatever happens between the answer's leaving the server and its arrival: the tab ends without a token if and only if the refresh was throttled or refused with an excuse, and with the granted one otherwise; what it stored until then never stays; the token it drops, of a sign-in meanwhile for instance, is still good if and only if it was good before and the refresh failed; the presented token is good after that if and only if it is now and the refresh was throttled or its user was inactive |
| `SessionLoss.SessionLostAtOnce` | services/web/src/api/client.ts:43-46 | an answer that arrives at once leaves the tab without a token while the presented one is still good if and only if the refresh was throttled without an excuse |
| `SessionLoss.RefusalDropsNewSession` | services/web/src/context/AuthContext.tsx:58 | an orderly run in which the user signs in during the refresh of an expired token, and its refusal, not throttled, drops the new and good session |
| `SessionLoss.SignedOutExactly` | services/web/src/context/AuthContext.tsx:73-83 | a tab without a token can get one back in an orderly run without sign-ins if and only if a granted pair is on its way to it, or a refresh whose token exists, unrevoked and unexpired, is on its way to the server |
| `SessionLoss.SignOutSticks` | services/web/src/context/AuthContext.tsx:73-83 | a sign-out while no refresh is under way lasts until the next sign-in in every orderly run, and the token is refused for ever once the server has heard of it |
| `SessionLoss.RefreshUndoesSignOut` | services/web/src/context/AuthContext.tsx:73-83 | an orderly run in which the user signs out, the server revokes the token, and the answer to a refresh then signs the tab in again |
| `Session.ThrottlingDropsTheSession` | services/web/src/api/client.ts:43-46 | an orderly run in which a throttled refresh empties the store of the tab while the server would still redeem its token |
| `Session.ChatRefreshCollides` | services/web/src/api/chat.ts:61-75 | a run without lost replies in which the chat client's own refresh presents the same token as the shared one: the second is refused without excuse and the tab loses a good token |
| `Session.LostReplyStrands` | services/web/src/api/client.ts:50-52 | a run without the chat refresh in which the reply to a refresh is lost, after which the next refresh is refused without excuse |
| `Chat.CitationsRoundTrip` | services/api/src/api/routers/chat.py:135 | reading the citations payload gives back the citations, in order and with all fields |
| `Chat.PayloadExact` | services/api/src/api/routers/chat.py:135 | the payload has one object for each citation with these five fields |
| `Chat.GenerateNode` | libs/core/core/rag/graph.py:56-73 | every token is written to the stream in order, and the answer kept is their concatenation |
| `Chat.RunGraph` | libs/core/core/rag/graph.py:44-89 | states and tokens in the order of the graph; the final state has the citations extracted from the answer; a failing provider ends it after the tokens, and a marker that cannot be read ends it one state later |
| `Chat.StreamAnswer` | libs/core/core/rag/graph.py:95-114 | the tokens in order and then, unless the pipeline raised, the last state |
| `Chat.Answer` | libs/core/core/rag/graph.py:95-114 | the two together: all tokens, then the state with the answer that they concatenate to |
| `Chat.SendTokens` | services/api/src/api/routers/chat.py:123-135 | one frame per token in order until the reader leaves; if it stays, the parts kept are the tokens and the state is the final one |
| `Chat.SentExact` | services/api/src/api/routers/chat.py:123-176 | how many frames go out for every reader and failure, and what each of them is: tokens, citations, length |
| `Chat.Endpoint.EventStream` | services/api/src/api/routers/chat.py:107-176 | the question is stored in every case; the answer, its citations (none for an empty list), its usage and its alert are stored if and only if no token is lost to a departed reader, the provider did not raise, the answer has no marker too long to be read, and the commit succeeds; the frames sent are token*, citations, done, cut off where the reader left |
| `Stream.StreamChatMessage` | services/web/src/api/chat.ts:87-125 | the handlers are called, in order, as the frames of the stream say; malformed and unknown frames are dropped |
| `Stream.DispatchExact` | services/web/src/api/chat.ts:107-125 | an object payload goes to the handler of its event with the property of its name; malformed, null and unknown frames reach no handler |
| `Stream.TextExact` | services/web/src/api/chat.ts:112 | every token text is shown once and in order, and nothing else is |
| `Stream.SeenImpliesStored` | services/api/src/api/routers/chat.py:123-176 | whatever fails and wherever the connection is cut, the calls are a beginning of the whole turn, the text shown is a beginning of the stored answer's content, and the browser hears of citations or of the end only if the answer is stored; it then shows all of the stored content, and what it heard decodes to the stored citations |
| `Stream.StreamConservation` | services/api/src/api/routers/chat.py:123-176 | in every completed turn, for every cutting into reads: token texts concatenate to the content of the stored message, the citations are the stored ones, the length is that of the content, and nothing else is called |
| `Stream.ChatTurn` | services/api/src/api/routers/chat.py:107-176 | endpoint and browser together, over any network that cuts and breaks off: if the handlers hear of citations or of the end, the question and then a message are stored, with the text shown and the citations heard; if nothing fails they are told exactly that message |
| `Stream.OfflineTurn` | libs/core/core/providers/llm.py:60-86 | prompt, stub, stream, extraction and chips together: in a completed offline turn the citations decoded from the received payload are one per hit, and the received text split with them shows exactly the chips 1, ..., number of hits |

## Left out

- HTTP, S3, PDF extraction, Celery, webhooks and the vendors of models and embeddings: foreign
  calls. Downloaded text, vectors (also in a wrong number), tokens and usage are arbitrary inputs.
- JSON encoding, MD5, SHA-256, Argon2 and JWT: hashes are arbitrary functions, refresh tokens are
  fresh numbers, and `JSON.parse` is taken to undo `json.dumps`, whose output has no line break
  (`Chat.Faithful`).
- UTF-8 decoding of the stream: reads are pieces of decoded text.
- Unicode tables: digits are ASCII digits, lower-casing is a parameter, and `\s` and `strip` share
  one list of white space.
- Float rounding in rank fusion and embeddings, and JavaScript numbers from 2^53 on.
- The edges of `Decimal` and of `Numeric(12, 6)`: 28 digits of precision and overflow.
- Month boundaries: a ledger is one calendar month.
- Sub-transaction anomalies of ingestion: its transactions are taken one after the other. In `Session`
  the server handles one refresh at a time; overlapping ones are in `Auth` alone.
- Session.AtMostOneRefresh: bounds the refreshes under way at one time and not those for one pair, as
  the promise of client.ts:30 is false; `Session.SecondRefreshExactly` has the exact condition.
- A worker that dies between transactions, or whose third transaction fails: its task simply never
  takes another step, and the document stays in processing.
- Clock skew between replicas, and the text of the rate-limit key: a caller is one string.
- RateLimit.TwiceTheLimitIsReached: needs windows of more than one tick; in a window of one tick an
  interval of that length is the window itself.
- A limit on the digits of `int` other than Python's default of 4300.
- Negative `rrf_k`: the constant is a natural number, as its setting intends.
- The lifetime of access tokens: any API call may be answered 401. Several tabs that share one
  token store.
- Exceptions thrown by the page's own handlers, which the client swallows, and pages without some
  handler.
- Row-level security, roles, CRUD routers, schemas, API keys, slugs and file names: one-branch or
  easy string facts.
- React components other than the splitting loop, Terraform, Kubernetes, Docker and migrations.
