# Models of common-go

Dafny models of the hard parts of a Go utility repository, with proofs of what they guarantee on
every input, every run or every schedule. `dafny verify dfyconfig.toml` checks the whole project.

- **SQL previews** (`db/gorm_slog_logger.go`; `Utf8`, `SqlScanner`, `SqlSkips`, `SqlRedactor`,
  `SqlBudget`, `SqlClean`, `SqlPreview`, `SqlMasking`, `SqlMarks`, `SqlTexts`, `SqlNumbers`,
  `SqlAlphabet`). The one-pass scanner that masks literals and numbers under a byte budget. `SqlScanner` gives the meaning
  of a query as a function of the unread bytes; the loops of `SqlSkips` and `SqlRedactor` are proved to
  compute it; the other modules prove that previews are clean fixed points and refine the redaction
  without a budget, and that each literal the scanner comes upon at its opening shows as one question
  mark, its value without influence on the preview. Behind text without quotes and dollars that is every
  literal but a quote directly behind an `e` or `E` (`SqlTexts`). `SqlAlphabet` says on characters which
  ones open what, and what a dollar tag is made of.
- **LRU cache with TTL** (`cache/memory.go`; `CacheSpec`, `CacheRuns`, `CacheMemory`). `CacheMemory`
  updates a map and a recency list of shared entry objects in place; `CacheSpec` is the list of rows it
  stands for; `CacheRuns` is about whole histories.
- **Graceful shutdown** (`app-runner/app_runner.go`; `Shutdown`, `ShutdownErrors`, `ShutdownHistory`) and **parallel downloads**
  (`utils/httputil/httputil.go`; `Downloads`). Step systems over every interleaving of their goroutines,
  with channels, WaitGroup, semaphore and deadline.
- **Event streams** (`llm/mqsse`; `Streams`, `StreamRuns`). Publisher and TextStreamer under arbitrary
  publish failures.
- **Smaller cores**: `RandomHex` (`utils/randutil/randutil.go`), `UrlJoin` (`utils/urlutil/urlutil.go`),
  `Ledger` (`db/sqlite/driver.go`).

## What the code does that a reader might not expect

- A preview may be longer than its budget although it is not marked as truncated: the check at
  `db/gorm_slog_logger.go:167` is skipped once the query is used up, so the last rune may overrun by up
  to three bytes. `OverrunWitness` is such a query, `OverrunsExactly` says exactly when it happens, and
  `AsciiEndKeepsBudget` gives a condition that is easy to meet.
- A standard literal directly behind an `e` or `E`, as in `LIKE'\','k'`, is read as an escape string
  whatever the letter belongs to. Its backslashes then hide quotes: `e'\','k'` redacts to `?k?`, which
  shows the value of the second literal (`MergedWitness`). `QuoteIsReached` says exactly which quotes
  are affected, and `EndsWhereSqlEndsExactly` exactly which values then end in the wrong place: never one
  without a backslash (`NoBackslashEndsWhereSqlEnds`).
- Budgets below three bytes can panic; `RedactSQLValues` says exactly when, `PanicsAtZero` spells out
  budget zero, and `PanicWitness` is a query.
- The value of a number can change how the text before it is read: `$a1.0$` keeps its dollars, while
  `$a1$` opens a dollar-quoted literal. `NumberWitness` is this pair, and `NumberIgnoredExactly` says
  exactly when a number can be replaced without effect.
- `Memory.Set` on a cache with capacity zero or less never leaves its eviction loop; `EvictionEnds`
  states that the loop ends exactly for a capacity of at least one.
- After a signal, or after Run has returned nil, an error of `Stop` never reaches the caller: wrapping
  the nil shutdown error at `app-runner/app_runner.go:149` gives nil
  (`vendor/github.com/psyb0t/ctxerrors/ctxerrors.go:85-112`), and `run` returns it at once, even while
  Run is still running (`NilWhileRunIsRunning`). `ReportedExactly` states that the error can be reported
  exactly if waitForShutdown took an error; the select may still leave by another branch
  (`MayLeaveByContext`).
- An error of Run that waitForShutdown took can be replaced by the shutdown timeout
  (`app-runner/app_runner.go:150-164`): `TimeoutReplacesRunError` is such a run for every error, and
  `RunErrorIsCarriedExactly` states that the error is carried in every other case.
- `GetRandomHex` panics from length 16 on, because the 64-bit product wraps to zero, and returns one
  digit for a length of zero or less.
- A migration version below NilVersion reads back as clean NilVersion (`ReadsBackExactly`).

## Model

| member | source | states |
|---|---|---|
| Utf8.Decode | db/gorm_slog_logger.go:137 | rune and size at a byte offset, U+FFFD and size 1 on malformed input; no byte below 0x80 is ever consumed as part of another rune |
| Utf8.DecodeEncoded | db/gorm_slog_logger.go:160 | decoding undoes WriteRune, whatever follows |
| Utf8.EncodeDecoded | db/gorm_slog_logger.go:137 | encoding a decoded well-formed sequence gives back its bytes |
| Utf8.DecodeIsLocal | db/gorm_slog_logger.go:137 | decoding never depends on what stands behind an ASCII byte |
| Utf8.RunesOfEncoded | db/gorm_slog_logger.go:314 | encoded runes are valid UTF-8 and read back as themselves |
| Utf8.EncodedRunes | db/gorm_slog_logger.go:314 | every valid string is the encoding of its runes |
| SqlScanner.Delimiter | db/gorm_slog_logger.go:214-230 | a delimiter is found exactly when the text opens with a dollar, a valid tag and a dollar, and is that prefix |
| SqlScanner.TokenClasses | db/gorm_slog_logger.go:123-165 | escape and dollar openings, quotes and digits are masked, exactly spaces leave a gap, any other rune is copied |
| SqlSkips.SkipQuotedLiteral | db/gorm_slog_logger.go:268-287 | the rune-wise loop stops where the byte automaton for doubled quotes stops |
| SqlSkips.SkipEscapeQuotedLiteral | db/gorm_slog_logger.go:183-212 | the rune-wise loop stops where the byte automaton with backslashes stops |
| SqlSkips.SkipNumericLiteral | db/gorm_slog_logger.go:293-304 | stops at the first rune that is neither digit nor dot |
| SqlSkips.SkipDollarQuotedLiteral | db/gorm_slog_logger.go:254-261 | stops just past the first recurrence of the delimiter from there on, or at the end of the query if there is none |
| SqlSkips.ValidDollarQuoteTag | db/gorm_slog_logger.go:232-252 | true exactly for letters of both cases, underscores, and digits that are not first |
| SqlSkips.TagEndIsFirstDollar | db/gorm_slog_logger.go:219-227 | searching for a dollar and then validating equals one forward scan |
| SqlSkips.DollarQuoteDelimiter | db/gorm_slog_logger.go:214-230 | computes the delimiter that opens the text, or none |
| SqlSkips.QuotedRoundTrip | db/gorm_slog_logger.go:268-287 | any bytes with quotes doubled are skipped exactly up to their closing quote |
| SqlSkips.EscapedRoundTrip | db/gorm_slog_logger.go:183-212 | every escape body (backslash pairs, doubled quotes, other bytes) is skipped exactly up to its closing quote |
| SqlSkips.EscapeIsBody | db/gorm_slog_logger.go:183-212 | any bytes with quotes and backslashes escaped form such a body |
| SqlSkips.EscapedShape | db/gorm_slog_logger.go:183-212 | whatever is skipped is an escape body closed where no quote follows, or everything left |
| SqlSkips.NumericRoundTrip | db/gorm_slog_logger.go:289-304 | a run of digits and dots is skipped to its end |
| SqlSkips.NumericShape | db/gorm_slog_logger.go:289-304 | whatever is skipped is such a run, and as long as possible |
| SqlSkips.QuotedShape | db/gorm_slog_logger.go:263-287 | whatever is skipped is some value with doubled quotes, closed where no quote follows, or the unclosed rest |
| SqlSkips.IndexIsFirst | db/gorm_slog_logger.go:255-260 | no occurrence of the delimiter comes before the one that ends the literal |
| SqlRedactor.FitIsLongest | db/gorm_slog_logger.go:313-316 | the kept prefix fits, no longer rune prefix does, and at most three bytes are wasted |
| SqlRedactor.ValidCutIsBoundary | db/gorm_slog_logger.go:314 | a byte prefix of valid text is valid only at a rune boundary |
| SqlRedactor.BackOff | db/gorm_slog_logger.go:314-316 | ends at the longest valid prefix not longer than the start |
| SqlRedactor.TruncateUTF8 | db/gorm_slog_logger.go:306-319 | panics exactly for a text over a budget below three; cuts exactly when too long; on valid text backs off at most three steps, to the longest rune prefix that leaves room for the marker |
| SqlRedactor.WriteToken | db/gorm_slog_logger.go:124-135 | one loop turn consumes the next token and appends what it emits; the space flag stays right |
| SqlRedactor.WriteRune | db/gorm_slog_logger.go:137-164 | the same for the switch on the decoded rune |
| SqlRedactor.RedactSQLValues | db/gorm_slog_logger.go:116-175 | for every budget: panics exactly if it is negative, or below three and overrun by the text cut off; otherwise computes the preview and truncated flag that the theorems below are about |
| SqlRedactor.PanicsAtZero | db/gorm_slog_logger.go:167-174 | a budget of zero panics exactly when the first token is no gap and something follows it |
| SqlRedactor.WideRunePanics | db/gorm_slog_logger.go:306-319 | below three bytes, a leading rune wider than the budget panics when something follows it |
| SqlRedactor.PanicWitness | db/gorm_slog_logger.go:306-319 | a query that panics at every budget below three |
| SqlRedactor.SummarizeSQL | db/gorm_slog_logger.go:105-113 | the same at the fixed budget, with the query's length |
| SqlBudget.CutKeepsPrefix | db/gorm_slog_logger.go:167-174 | the budgeted pass yields a prefix of the full redaction, all of it if not cut |
| SqlBudget.CutWhenFilled | db/gorm_slog_logger.go:167 | cut exactly when a token before the last fills the budget |
| SqlBudget.CutStaysUnder | db/gorm_slog_logger.go:167 | every proper prefix of the output stays below the budget |
| SqlBudget.CutIsFirstFilled | db/gorm_slog_logger.go:167-171 | a pass that is cut stops with the first output before the last token that fills the budget |
| SqlBudget.TrimIsExact | db/gorm_slog_logger.go:168-174 | trimming removes all spaces at both ends and nothing else |
| SqlClean.CutClean | db/gorm_slog_logger.go:123-165 | the raw output has no quote, digit or dollar delimiter and only single spaces, never first |
| SqlClean.CutOfClean | db/gorm_slog_logger.go:123-165 | clean text whose proper prefixes fit is copied unchanged |
| SqlPreview.PreviewIsClean | db/gorm_slog_logger.go:116-175 | every preview is valid UTF-8 without quotes, digits, dollar delimiters, or whitespace other than single interior spaces |
| SqlPreview.PreviewLength | db/gorm_slog_logger.go:167-174 | at most the budget if truncated, at most three bytes more otherwise |
| SqlPreview.PreviewIsFixedPoint | db/gorm_slog_logger.go:116-175 | redacting a preview again returns it, not truncated, even after a truncated first pass |
| SqlPreview.PreviewRefinesRedaction | db/gorm_slog_logger.go:116-175 | untruncated: the trimmed full redaction; truncated: a rune prefix of it, perhaps with the marker; truncated exactly when a proper token prefix fills the budget |
| SqlPreview.TruncatedExactly | db/gorm_slog_logger.go:167-171 | a truncated preview is the trimmed first output that fills the budget, if that fits; else its longest rune prefix that leaves room for the marker, and the marker |
| SqlPreview.TruncatedIsLong | db/gorm_slog_logger.go:306-319 | a truncated preview has at least three bytes less than the budget, and at most the budget |
| SqlPreview.LastTokenEmits | db/gorm_slog_logger.go:159-167 | the redaction is the output before the last token and what that token emits |
| SqlPreview.OverrunsExactly | db/gorm_slog_logger.go:167 | longer than the budget exactly when the last token is a copied rune, everything before it stays below the budget, and the rune crosses it |
| SqlPreview.AsciiEndKeepsBudget | db/gorm_slog_logger.go:167 | a query ending in an ASCII byte never overruns |
| SqlPreview.OverrunWitness | db/gorm_slog_logger.go:167-174 | letters and one three-byte rune: a preview two bytes over any budget, not marked as truncated |
| SqlMasking.NextStable | db/gorm_slog_logger.go:123-165 | a token that ends before a literal's opening does not depend on anything behind the opening, in spite of the dollar look-ahead |
| SqlMasking.LiteralToken | db/gorm_slog_logger.go:124-144 | each of the three literal forms is one masked token that ends at its closing delimiter, or at the end of the query if it is not closed |
| SqlMasking.PreviewIgnoresValues | db/gorm_slog_logger.go:116-175 | queries that differ only in the values of literals the scanner comes upon at their openings, any number of them and the last perhaps unclosed, have the same preview and flag |
| SqlMasking.QuotedValueIgnored | db/gorm_slog_logger.go:140-144 | the same for one quoted literal behind any prefix at whose end the scanner starts a token; QuoteIsReached says which plain prefixes those are |
| SqlMarks.NextAcross | db/gorm_slog_logger.go:123-165 | a token that ends before an ASCII byte is the same token before a question mark |
| SqlMarks.LiteralsReadAsMarks | db/gorm_slog_logger.go:116-175 | a query has the preview and flag of the query with a question mark for each literal that the scanner comes upon at its opening |
| SqlTexts.OpeningIsReached | db/gorm_slog_logger.go:123-165 | behind text without quotes and dollars the scanner comes upon a literal at its opening exactly unless it is a quote directly behind an e or E |
| SqlTexts.QuoteIsReached | db/gorm_slog_logger.go:124-144 | for a quote: exactly when that text is empty or does not end in e or E |
| SqlTexts.ReadableIsPlaced | db/gorm_slog_logger.go:123-165 | for any number of literals: conditions on the text alone under which the scanner comes upon each at its opening |
| SqlTexts.ReadableIsMasked | db/gorm_slog_logger.go:116-175 | under those conditions literal values have no influence and each literal shows as one question mark |
| SqlTexts.QuotedValueIgnoredInText | db/gorm_slog_logger.go:140-144 | a quoted value behind text that does not end in e or E has no influence on preview and flag |
| SqlTexts.EndsWhereSqlEndsExactly | db/gorm_slog_logger.go:183-212 | read as an escape string, a standard literal with something behind it ends at its closing quote exactly when its body keeps to the escape grammar |
| SqlTexts.NoBackslashEndsWhereSqlEnds | db/gorm_slog_logger.go:183-212 | the body of a value without backslashes does |
| SqlTexts.MergedValueIgnored | db/gorm_slog_logger.go:177-212 | directly behind the letter too, such values have no influence on preview and flag |
| SqlTexts.MergedWitness | db/gorm_slog_logger.go:177-212 | a query of two standard literals whose redaction shows the value of the second |
| SqlNumbers.NumberToken | db/gorm_slog_logger.go:154-158 | a digit with the digits and dots behind it is one masked token |
| SqlNumbers.NextBefore | db/gorm_slog_logger.go:123-165 | a token before a number does not depend on the number unless a dollar's look-ahead runs through it |
| SqlNumbers.NumberIgnoredExactly | db/gorm_slog_logger.go:116-175 | another number leaves the redaction unchanged exactly when no dollar before it then looks ahead through it to the end of a tag |
| SqlNumbers.PreviewIgnoresNumber | db/gorm_slog_logger.go:116-175 | then preview and flag are unchanged at every budget |
| SqlNumbers.NumberWitness | db/gorm_slog_logger.go:214-230 | a pair of queries that differ in a number and in their redaction |
| SqlAlphabet.TagAlphabet | db/gorm_slog_logger.go:232-252 | the tags the scan accepts are those of a-z, A-Z, underscore, and 0-9 but not first |
| SqlAlphabet.DelimiterExactly | db/gorm_slog_logger.go:214-230 | a text without dollars between two dollars is a delimiter exactly if it is such a tag, and then with both dollars |
| SqlAlphabet.NoSecondDollar | db/gorm_slog_logger.go:219-222 | without a second dollar there is no delimiter |
| SqlAlphabet.OpensDollarExactly | db/gorm_slog_logger.go:214-230 | a dollar opens a literal exactly if some such tag and a dollar follow it |
| SqlAlphabet.TokenOfAscii | db/gorm_slog_logger.go:123-165 | for each ASCII character: which open a masked token, which a gap of one byte, and that every other is copied |
| SqlAlphabet.TokenOfRune | db/gorm_slog_logger.go:137-164 | for each other rune: a gap for the white space of Unicode, written out, masked for digits, else copied whole |
| SqlAlphabet.TokenOfMalformed | db/gorm_slog_logger.go:137-164 | bytes that begin with the encoding of no rune give U+FFFD for one byte |
| SqlAlphabet.TokenOfNumber | db/gorm_slog_logger.go:154-158 | 0-9 followed by 0-9 and dots is one masked token up to the first other ASCII character |
| SqlAlphabet.NumberShows | db/gorm_slog_logger.go:154-158 | such a number shows as one question mark, and the rest is redacted behind it |
| SqlAlphabet.PlainShows | db/gorm_slog_logger.go:159-164 | an ASCII character that opens nothing shows as itself, and the rest is redacted behind it |
| SqlAlphabet.GapsCollapse | db/gorm_slog_logger.go:145-153 | any run of ASCII white space adds one space, or none at the start or behind a space |
| SqlAlphabet.PreviewBytes | db/gorm_slog_logger.go:116-175 | no byte of a preview is a quote, a digit, or white space other than the space |
| SqlAlphabet.MarkerBytes | db/gorm_slog_logger.go:306-319 | the marker takes the three bytes that are set aside for it |
| CacheSpec.RunValid | cache/memory.go:83-122 | after every history keys are distinct and the size is within capacity |
| CacheSpec.PutEvicts | cache/memory.go:92-122 | a Set evicts nothing unless the key is new and the cache full, then exactly the last row |
| CacheSpec.EvictionEnds | cache/memory.go:106-110 | the eviction loop ends exactly for a capacity of at least one |
| CacheSpec.UnexpiredMembers | cache/memory.go:199 | cleanup keeps exactly the rows that have not expired |
| CacheRuns.RowsAreLatest | cache/memory.go:83-137 | every row held is the latest undeleted Set of its key |
| CacheRuns.HitIsLatestWrite | cache/memory.go:57-137 | every hit is the value an unbounded TTL map would answer |
| CacheRuns.Retention | cache/memory.go:57-122 | a live key is answered while fewer than capacity other keys were set or hit since it was |
| CacheRuns.PresentExactly | cache/memory.go:57-122 | while only Set and Get run, a key is present exactly as long as that count stays below capacity |
| CacheRuns.ListIsByRecency | cache/memory.go:78-118 | the list is sorted by last Set or hit |
| CacheRuns.CleanupInvisible | cache/memory.go:183-208 | a cleanup changes no lookup at its time or later |
| CacheRuns.CleanupLeaves | cache/memory.go:183-208 | after a cleanup exactly the unexpired rows of the history are left, in their order |
| CacheRuns.LastAnswer | cache/memory.go:57-81 | a Get behind any history answers the latest undeleted unexpired write or nothing, and surely that write while fewer than capacity other keys were touched |
| CacheMemory.ListedIsMapped | cache/memory.go:24-25 | an entry is in the list exactly when the map holds it under its own key |
| CacheMemory.LookupAgrees | cache/memory.go:64 | looking up the map is looking up the list |
| CacheMemory.RemoveIsDrop | cache/memory.go:157 | removing an element removes its row and keeps the order |
| CacheMemory.Memory.constructor | cache/memory.go:44-55 | starts empty |
| CacheMemory.Memory.Get | cache/memory.go:57-81 | answers a hit or miss and moves a hit to the front |
| CacheMemory.Memory.MoveToFront | cache/memory.go:78 | moves one entry to the front of the list, the map unchanged |
| CacheMemory.Memory.Set | cache/memory.go:83-122 | puts the row first, evicting to capacity |
| CacheMemory.Memory.Overwrite | cache/memory.go:92-104 | updates a present entry in place and moves it to the front |
| CacheMemory.Memory.MakeRoom | cache/memory.go:106-110 | leaves the most recent rows, one fewer than capacity at most |
| CacheMemory.Memory.Insert | cache/memory.go:112-119 | puts a new entry first |
| CacheMemory.Memory.PushFront | cache/memory.go:118-119 | adds one entry to list and map |
| CacheMemory.Memory.Delete | cache/memory.go:124-137 | removes the key and nothing else |
| CacheMemory.Memory.EvictOldest | cache/memory.go:145-152 | removes the last entry, if any: one turn of the eviction loop |
| CacheMemory.Memory.RemoveElement | cache/memory.go:154-167 | removes one entry from list and map |
| CacheMemory.Memory.RemoveExpired | cache/memory.go:183-208 | for every iteration order keeps exactly the unexpired rows in their order |
| CacheMemory.Memory.Perform | cache/memory.go:57-208 | one call is one step of the history model, with its answer |
| CacheMemory.Replay | cache/memory.go:44-208 | any history of calls on a new cache leaves the rows and gives the answers of the history model |
| Shutdown.StepInv | app-runner/app_runner.go:70-171 | every step of every goroutine keeps the protocol's invariant |
| Shutdown.ProtocolIsSafe | app-runner/app_runner.go:33-171 | in every interleaving: WaitGroup counts unfinished goroutines, no send blocks or hits a closed channel, no double close, `doneCh` closes only after Run and Stop returned, the run channel's close is never taken for a result; no channel holds more than one value, the shutdown context is over when the caller's is; the deferred cancels being steps, through Run only the deadline ends the context before the final select is left |
| Shutdown.OutcomeIsSafe | app-runner/app_runner.go:104-171 | a Run error taken never becomes nil, the done branch comes after Run and Stop returned, nil exactly if none was taken and the context did not end first, and through Run the context branch means the timeout |
| Shutdown.OutcomeWithRunError | app-runner/app_runner.go:147-170 | what each branch returns when waitForShutdown took an error of Run: the error, the error wrapped in the text of Stop's, the timeout, or the error wrapped in the text of the cancelation |
| Shutdown.OutcomeWithoutRunError | app-runner/app_runner.go:147-170 | what each branch returns after a signal or a nil from Run: nil, nil, the timeout, or the cancelation |
| Shutdown.RunErrorIsCarriedExactly | app-runner/app_runner.go:104-171 | a Run error taken is returned, as it is or wrapped, exactly unless the outcome is the timeout in its place; only the context branch does that |
| Shutdown.RunsAreShort | app-runner/app_runner.go:70-171 | signals aside no run has more than 18 steps |
| Shutdown.ShutdownAlwaysReturns | app-runner/app_runner.go:104-171 | with the deadline counted as a step, nothing gets stuck but the first select with nothing to receive |
| Shutdown.NothingLeaks | app-runner/app_runner.go:95-145 | once Run and Stop have returned every goroutine finishes, also after an early return |
| ShutdownErrors.NeverReportedWithoutRunError | app-runner/app_runner.go:147-170 | without an error from waitForShutdown the outcome is nil or a context error and carries nothing of Stop's error |
| ShutdownErrors.TakeIt | app-runner/app_runner.go:130-149 | from any waiting state the pending error of Stop can be taken and ends the run with the shutdown error wrapped in its text, or nil |
| ShutdownErrors.ReportedExactly | app-runner/app_runner.go:119-171 | while the final select waits, some continuation reports Stop's error exactly if shutdownErr is not nil |
| ShutdownErrors.MayLeaveByContext | app-runner/app_runner.go:150-164 | every waiting state has a continuation that leaves by the context |
| ShutdownErrors.NilWhileRunIsRunning | app-runner/app_runner.go:148-149 | for every error of Stop a run that returns nil while Run is still running |
| ShutdownErrors.TimeoutReplacesRunError | app-runner/app_runner.go:150-164 | for every error of Run a run that takes it and returns the timeout |
| ShutdownHistory.ShutdownHasACause | app-runner/app_runner.go:104-117 | shutdown begins with a signal that was sent and taken, or with the one result that Run returned |
| ShutdownHistory.RunErrorComesBack | app-runner/app_runner.go:104-171 | on the steps of any run: an error that Run returned and waitForShutdown took comes back from the done branch as it is, from the stop branch wrapped in the text of an error Stop returned, and is replaced only after a deadline |
| ShutdownHistory.NothingElseComesBack | app-runner/app_runner.go:104-171 | on the steps of any run: after a signal, or a nil from Run, nil unless the context was received, and then its error |
| Downloads.StepInv | utils/httputil/httputil.go:80-121 | every step of every worker and of the main goroutine keeps the invariant |
| Downloads.DownloadsAreSafe | utils/httputil/httputil.go:71-100 | any n, any schedule: one token per worker between acquiring and releasing, never more than 5 nor n, and at most that many downloads at once; no send blocks or meets a closed channel |
| Downloads.ResultIsExact | utils/httputil/httputil.go:87-121 | each of the n downloads returned once; nil exactly when none returned an error, otherwise exactly the multiset of the errors returned |
| Downloads.ResultIsInOrder | utils/httputil/httputil.go:103-118 | the errors are reported in the order in which they were sent |
| Downloads.AcquireWaitsExactly | utils/httputil/httputil.go:71-92 | a worker waits for the semaphore exactly while five others hold its tokens |
| Downloads.RankFalls | utils/httputil/httputil.go:87-118 | a measure falls on every step |
| Downloads.RunsAreBounded | utils/httputil/httputil.go:87-118 | no schedule has more than 7n + 4 steps |
| Downloads.NeverDeadlocks | utils/httputil/httputil.go:87-118 | until it returns some step is possible |
| Streams.SendAllAppends | llm/mqsse/publisher.go:225-293 | a sequence of sends appends all its events, or a strict prefix up to the first failing call |
| Streams.Publisher.Publish | llm/mqsse/publisher.go:31-50 | appends the event, or fails and appends nothing |
| Streams.Publisher.SendStreamPreamble | llm/mqsse/publisher.go:225-237 | message start, then ping |
| Streams.Publisher.SendStreamEpilogue | llm/mqsse/publisher.go:239-250 | message delta with end_turn, then message stop |
| Streams.Publisher.SendToolUseBlock | llm/mqsse/publisher.go:252-272 | a start with id and name in their places, the input delta and the stop, all at the index |
| Streams.Publisher.SendToolResultBlock | llm/mqsse/publisher.go:274-293 | a start with the tool use id, the result delta and the stop, all at the index |
| Streams.TextStreamer.constructor | llm/mqsse/text_streamer.go:19-27 | no text, no open block, the start index |
| Streams.TextStreamer.WriteChunk | llm/mqsse/text_streamer.go:42-76 | keeps the text, opens a block if none is open, sends the delta; every failure point |
| Streams.TextStreamer.CloseBlock | llm/mqsse/text_streamer.go:80-101 | sends the stop and advances the index, only if that succeeds |
| Streams.TextStreamer.Text | llm/mqsse/text_streamer.go:30-32 | the accumulated text |
| StreamRuns.Replay | llm/mqsse/text_streamer.go:19-101 | any calls on a new streamer leave the state and return the results of the run model that the rows below are about |
| StreamRuns.TraceIsBlocks | llm/mqsse/text_streamer.go:42-101 | under any failures the topic grows by whole numbered blocks, the last perhaps open; the deltas are the non-empty chunks of the successful calls, one each and in order; Text is all text |
| StreamRuns.CallsTakeEffect | llm/mqsse/text_streamer.go:42-101 | after any calls: a write that returns nil leaves a block open, a close that does leaves none, a failing close changes nothing, nor does the empty chunk |
| StreamRuns.HealthyTrace | llm/mqsse/text_streamer.go:42-101 | if no publish fails the topic gains exactly the blocks that the closes mark off |
| StreamRuns.TraceCounts | llm/mqsse/text_streamer.go:63-98 | starts minus stops is blockStarted, stops are BlockIndex minus the start index |
| StreamRuns.PublishedTextIsAccepted | llm/mqsse/text_streamer.go:42-76 | the text of the delta events on the topic is that of the successful calls |
| StreamRuns.PublishedTextIsTextExactly | llm/mqsse/text_streamer.go:47-75 | the text of the delta events on the topic is Text exactly when no WriteChunk failed |
| StreamRuns.HealthyWire | llm/mqsse/text_streamer.go:42-101 | if no publish fails no call fails |
| StreamRuns.SilentStreamer | llm/mqsse/text_streamer.go:49-51 | without a publisher no block opens and Text is all text |
| RandomHex.BoundStep | utils/randutil/randutil.go:12-14 | the 64-bit product is exact up to length 15 and zero from 16 on |
| RandomHex.WrapIsInt64 | utils/randutil/randutil.go:10-14 | the product kept is the int64 congruent to the exact one |
| RandomHex.DigitsAreLowerCase | utils/randutil/randutil.go:16 | the digits are 0123456789abcdef |
| RandomHex.Multiply | utils/randutil/randutil.go:10-14 | the loop computes that bound |
| RandomHex.Pad | utils/randutil/randutil.go:18-20 | puts exactly the missing zeros in front |
| RandomHex.GetRandomHex | utils/randutil/randutil.go:9-23 | panics exactly from length 16 on; otherwise the fixed-width digits of the draw |
| RandomHex.DrawsAreStrings | utils/randutil/randutil.go:9-23 | draws below 16 to the length and hex strings of that length correspond one to one, undone by parsing |
| UrlJoin.JoinURLPaths | utils/urlutil/urlutil.go:37-54 | the trimmed base, then every non-empty trimmed path behind one slash |
| UrlJoin.TrimLeftRemoves | utils/urlutil/urlutil.go:41-45 | trimming on the left removes slashes and nothing else |
| UrlJoin.TrimRightRemoves | utils/urlutil/urlutil.go:37-45 | and so on the right |
| UrlJoin.PathShape | utils/urlutil/urlutil.go:40-45 | every path is slashes alone, or a bare part between slashes |
| UrlJoin.BaseJoins | utils/urlutil/urlutil.go:47-54 | the base loses exactly the slashes at its end |
| UrlJoin.PartJoins | utils/urlutil/urlutil.go:37-54 | a bare part adds one slash and itself, however many slashes stand around it |
| UrlJoin.SlashesJoin | utils/urlutil/urlutil.go:37-54 | a path of slashes alone, or none, adds nothing |
| UrlJoin.CleanIsBare | utils/urlutil/urlutil.go:40-45 | the paths joined are not empty and neither start nor end with a slash |
| UrlJoin.JoiningComposes | utils/urlutil/urlutil.go:37-54 | joining in two steps is joining in one |
| Ledger.Driver.SetVersion | db/sqlite/driver.go:81-114 | no error exactly if every statement run succeeds, and then the rows are replaced; an error leaves them; the unique index never objects |
| Ledger.Driver.Version | db/sqlite/driver.go:116-138 | reads the row, or clean NilVersion if there is none; a failing query gives clean NilVersion and an error |
| Ledger.ApplyIsExact | db/sqlite/driver.go:81-114 | the rows and the error of a call for each statement that may fail |
| Ledger.LedgerIsRegister | db/sqlite/driver.go:81-138 | over every run the ledger is a register of the last committed pair, with at most one row once something has committed or if it started so |
| Ledger.ReadsBackExactly | db/sqlite/driver.go:94-137 | a committed pair reads back unchanged exactly when its version is not below NilVersion |

## Left out

- Logging around the summariser (`Info`, `Warn`, `Error`, `Trace`, level choice): a small decision table.
- The table of non-ASCII decimal digits is a parameter, any set of runes other than spaces, U+FFFD and the ellipsis.
- Lock-level concurrency of the cache, its ticker goroutine and Close: every method is one atomic step. `Get` reorders the list under the read lock only, so for concurrent readers this is an assumption.
- The type assertion of list elements in the cache, which cannot fail for the entries it stores, and sharing of value slices with callers: values are immutable here.
- CacheMemory.Memory.Set: requires a capacity of at least one, without which the call does not return; see EvictionEnds.
- CacheMemory.Memory.MakeRoom: requires a capacity of at least one for the same reason.
- CacheRuns.CleanupInvisible: says nothing about later evictions, which a cleanup does change.
- `container/list` is a sequence of entry references; its pointers are not modelled.
- Error translations registered with `ctxerrors`, and panics in Run and Stop.
- The wording of error messages, including the joined text of DownloadFiles; DownloadFile itself.
- JSON encoding of events: a marshalling error counts as a failed publish.
- Writes to the public BlockIndex field by callers of TextStreamer.
- The migration driver's lock flag, Run and table creation; golang-migrate and the MySQL and PostgreSQL code.
- The other generators of `utils/randutil`, `BuildURI` and `GetURLWithParams`.
- NATS, Temporal, Redis, HTTP, Loki and file helpers, rate limiting, configuration: wrappers around other libraries.
