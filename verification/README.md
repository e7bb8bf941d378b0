# A verified model of the code messaging bridge

The bridge takes WhatsApp messages in through a webhook, stores and queues them, lets a worker run the
Claude Code CLI on them, and sends the formatted answer back in numbered parts. This project models the
four places where that can go wrong in a way no single function shows, and proves what holds of them.
`dafny verify dfyconfig.toml` checks everything.

**Outbound text** (`Text`, `Splitter*`, `Formatter*`, `Pipeline`, `FailureMessages`). The splitter is a greedy
recursion over three delimiters and a hard cut. Four consecutive cuts always use up a window
(`FourCutsUseAWindow`), so the number of parts is bounded by the length of the text (`PartCountBound`), and the
bound is reached by texts of few windows (`BoundIsReached`). Splitting loses only whitespace, breaks words only
at hard cuts, and its prefixes can be read back. The docstring promises parts "no longer than max_length". That
can be false, but only with a hundred parts or more: the 8 reserved characters hold "[99/99] " and nothing
longer. `PromiseHoldsIff` decides the promise for every limit and every length: all texts of that length keep it
exactly when the length is below that of the shortest text with a hundred parts, 25 windows and 174 characters
(for a window of at least 5; the four smaller ones have their own numbers). `PartsReachableIff` gives the
shortest text with p parts for every p. For text without whitespace the exact limit is 99 windows
(`SolidFitsIffShort`). The worker truncates successful output, so those parts always fit
(`SuccessfulResponseFits`, at most 25 parts). The text for a failed run starts with an apology and is not
truncated: all error messages of a length fit exactly when it is below 25 windows and 173 characters, which is
39973 (`ErrorMessageFitsIff`).

The two regular expressions are explicit scanners, proved to compute the one leftmost segmentation of the text.
The docstring of the formatter says that images are removed and links converted. As each pass goes over the text
once, what it writes can form a new image or link, so that is false for some texts: `FormatterNested` has a
family of them for each way this can happen. `FormatLeavesMarkupIff` says for every text exactly when the output
of `format` has an image or a link left, by a condition on the characters and links that the second pass sees.
Texts made of words, images and links as people write them come out as promised (`PassesShowTheDocument`,
`OrdinaryDocumentIsCleaned`).

**Webhook ingestion** (`Ingestion*`, `WebhookServer`). Any number of handlers run statement by statement
against two tables with unique constraints. The database is PostgreSQL at READ COMMITTED: a select sees
committed rows and the handler's own; an insert of a unique key fails if the key is committed, waits while
another open transaction holds it, and is pending otherwise; a rollback drops the handler's pending rows; a
commit publishes them. Handlers can also be stopped at any point. Every reachable state of every interleaving
agrees with serving the committed requests one at a time, stores and queues each message at most once, keeps
one active conversation per user, and never deadlocks. `WebhookServer.Server` is the imperative code, with
arbitrary interference from other handlers between any two statements.

**Rate limiter** (`RateLimiter`, `RateLimiterOptimal`, `IngestionRate`). Pruning never changes a decision, every
window holds the promised number of requests, and no other policy with the same bound would ever have let
more through.

**Worker** (`Runner`, `Worker`, `WorkerLaws`). The retry loop, the post loop that can stop part-way, the session id that is
threaded from task to task, and the commit or rollback around them. The docstring of `invoke_with_retry` says
that non-zero exits are retried; `RetriesAsDocumentedIff` says exactly when the code does what it says.

## Model

| member | source | states |
|---|---|---|
| Splitter.CutIsBestInWindow | src/code_messaging_bridge/services/messaging/message_splitter.py:42-66 | the cut is at the last occurrence in the window (after its first character) of the best delimiter that occurs there; a hard cut only when none does |
| Text.SpaceIffListed | src/code_messaging_bridge/services/messaging/message_splitter.py:56-57 | whitespace is exactly the 29 characters that strip removes |
| Splitter.CutLosesOnlySpace | src/code_messaging_bridge/services/messaging/message_splitter.py:56-57 | first part, dropped whitespace and rest make up the text, and the first part fits the window |
| Splitter.ProgressNeedsBudget | src/code_messaging_bridge/services/messaging/message_splitter.py:37-60 | a step shortens the text if and only if the budget is positive or there is leading whitespace |
| Splitter.RecursionEndsIff | src/code_messaging_bridge/services/messaging/message_splitter.py:37-60 | the recursion ends iff the budget is positive or the text is all whitespace (a limit of 8 leaves a budget of 0) |
| SplitterSize.RepeatedKindLeavesWindow | src/code_messaging_bridge/services/messaging/message_splitter.py:42-66 | a cut followed by one of the same or a better kind ends beyond the first cut's window |
| SplitterSize.FourCutsUseAWindow | src/code_messaging_bridge/services/messaging/message_splitter.py:37-66 | any four consecutive cuts advance at least a whole window in the original text |
| SplitterSize.PartCountBound | src/code_messaging_bridge/services/messaging/message_splitter.py:37-60 | at most 4*floor((len-1)/window)+1 parts, for every text and every window |
| SplitterText.SplitIsLossless | src/code_messaging_bridge/services/messaging/message_splitter.py:56-60 | text = p1 g1 ... pn gn with all gaps whitespace and all parts within the window |
| SplitterText.SplitKeepsVisibleText | src/code_messaging_bridge/services/messaging/message_splitter.py:56-60 | the non-whitespace characters survive exactly and in order |
| SplitterText.WordsBreakOnlyAtHardCuts | src/code_messaging_bridge/services/messaging/message_splitter.py:42-66 | nothing is dropped between two parts only if the left one fills the window; a part that fills the window offers no delimiter |
| SplitterText.NoBlankParts | src/code_messaging_bridge/services/messaging/message_splitter.py:56-60 | trimmed text longer than the window gives at least two parts, all nonempty and trimmed |
| SplitterText.PartsStartVisibly | src/code_messaging_bridge/services/messaging/message_splitter.py:56-60 | if the text starts with a visible character, so does every part |
| SplitterPrefix.PartRoundTrip | src/code_messaging_bridge/services/messaging/message_splitter.py:34-35 | index, total and text are read back from any numbered part |
| SplitterPrefix.SplitRoundTrip | src/code_messaging_bridge/services/messaging/message_splitter.py:24-35 | every element of a split reads back as its own number, the number of parts and its raw part |
| SplitterPrefix.PrefixFits | src/code_messaging_bridge/services/messaging/message_splitter.py:18-19 | the prefix fits the 8 reserved characters iff the two numbers have at most four digits together, iff at most 99 parts or one of the first 9 of at most 999 |
| SplitterPrefix.FitsByLength | src/code_messaging_bridge/services/messaging/message_splitter.py:24-35 | every part fits max_length for any text of at most 25 windows |
| SplitterTight.SolidFitsIffShort | src/code_messaging_bridge/services/messaging/message_splitter.py:24-35 | for text without whitespace every part fits iff the text has at most 99 windows |
| SplitterTight.BlocksSplitIntoFour | src/code_messaging_bridge/services/messaging/message_splitter.py:37-60 | k blocks of window+8 characters come out as exactly 4k parts, whatever follows them, for every k and every window of at least 3 |
| SplitterTight.BoundIsReached | src/code_messaging_bridge/services/messaging/message_splitter.py:37-60 | for every k with 8k below the window there is a text with exactly as many parts as the bound allows |
| SplitterTight.PromiseBreaksAt25Messages | src/code_messaging_bridge/services/messaging/message_splitter.py:25 | for every limit above 8 there is a text of 25 maximal messages whose split has a part that is too long, out of exactly 100 parts if the limit is above 10 |
| SplitterShortest.PartsNeed | src/code_messaging_bridge/services/messaging/message_splitter.py:37-66 | a text with p parts is at least as long as the shortest one, for every p and every window |
| SplitterShortest.PartsReachableIff | src/code_messaging_bridge/services/messaging/message_splitter.py:37-66 | some text of a length has p parts or more iff the length is at least that of the shortest text with p parts: the exact maximum of parts for every length |
| SplitterExact.HundredPartsNeed | src/code_messaging_bridge/services/messaging/message_splitter.py:37-66 | a text that makes a hundred parts has at least 25 windows and 174 characters (windows of at least 5; exact numbers for the smaller ones) |
| SplitterExact.ShorterFits | src/code_messaging_bridge/services/messaging/message_splitter.py:24-35 | every text below that length keeps the promise |
| SplitterExact.LongerBreaks | src/code_messaging_bridge/services/messaging/message_splitter.py:25 | from that length on there is a text of every length that breaks it, for every limit above 8 |
| SplitterExact.PromiseHoldsIff | src/code_messaging_bridge/services/messaging/message_splitter.py:25 | all texts of a length keep the promise iff the length is below that of the shortest text with a hundred parts |
| Formatter.MatchFrontIsPattern | src/code_messaging_bridge/services/claude/response_formatter.py:24-27 | the scanner's matcher finds a match iff the pattern matches, and the match is unique |
| Formatter.MatchFrontSpelled | src/code_messaging_bridge/services/claude/response_formatter.py:24-27 | the same with the two patterns written out character by character |
| Formatter.ScanIsTheLeftmostSegmentation | src/code_messaging_bridge/services/claude/response_formatter.py:24-27 | the scan is the one segmentation in which matches are well-formed and no character was copied where a match was possible |
| FormatterFacts.PassLength | src/code_messaging_bridge/services/claude/response_formatter.py:23-27 | the link pass shortens the text by exactly the number of links; each image changes the length by exactly 2 minus the length of its address |
| FormatterFacts.LinkPassKeepsText | src/code_messaging_bridge/services/claude/response_formatter.py:27 | the link pass changes nothing but square brackets and spaces |
| FormatterSurvivors.FormatLeavesMarkupIff | src/code_messaging_bridge/services/claude/response_formatter.py:9-33 | for every text, the output of format has an image (a link) left iff one comes into being at a copied character, in a title or in an address that the second pass sees within the first 10000 characters |
| FormatterSurvivors.PassesLeaveMarkupIff | src/code_messaging_bridge/services/claude/response_formatter.py:23-27 | the same of the two passes before truncation and strip |
| FormatterSurvivors.ImageFreeTextLeavesMarkupIff | src/code_messaging_bridge/services/claude/response_formatter.py:9-33 | for a text in which no image is found and that is not truncated, the condition is on the links of the text itself |
| FormatterSurvivors.CopiedBracketLeavesIff | src/code_messaging_bridge/services/claude/response_formatter.py:26-27 | at a copied bracket the only way is a copied closing bracket that meets a title opening a parenthesis |
| FormatterSurvivors.PlainPiecesLeaveNothing | src/code_messaging_bridge/services/claude/response_formatter.py:9-33 | format leaves no link when no title or address has an opening bracket and no title starts with a parenthesis, and then no image unless one with an empty alt text is copied |
| FormatterNested.EmptyImageInside | src/code_messaging_bridge/services/claude/response_formatter.py:12-33 | an image with an empty alt text inside an alt text is left by both passes |
| FormatterNested.ImageFromLink | src/code_messaging_bridge/services/claude/response_formatter.py:12-33 | the link pass makes an image out of brackets after an exclamation mark and a title that opens a parenthesis |
| FormatterNested.LinkInTitle | src/code_messaging_bridge/services/claude/response_formatter.py:11-33 | a link that starts in the title of a link is left |
| FormatterNested.LinkInUrl | src/code_messaging_bridge/services/claude/response_formatter.py:11-33 | a link that starts in the address of a link is left |
| FormatterNested.LinkAtBrackets | src/code_messaging_bridge/services/claude/response_formatter.py:11-33 | a link made of copied brackets and a title that opens a parenthesis is left |
| FormatterNested.NestedImageIsShown | src/code_messaging_bridge/services/claude/response_formatter.py:12-27 | of two nested images with a nonempty alt text the second pass shows the rest as a link |
| FormatterNested.EmptyImageText | src/code_messaging_bridge/services/claude/response_formatter.py:11-33 | format leaves an image of `![![](u)](v)` |
| FormatterNested.ImageFromLinkText | src/code_messaging_bridge/services/claude/response_formatter.py:11-33 | format leaves an image of `![a][(b](u)` |
| FormatterNested.LinkInTitleText | src/code_messaging_bridge/services/claude/response_formatter.py:11-33 | format leaves a link of `[a[b](u)](v)` |
| FormatterNested.LinkInUrlText | src/code_messaging_bridge/services/claude/response_formatter.py:11-33 | format leaves a link of `[a](u[b)](v)` |
| FormatterNested.LinkAtBracketsText | src/code_messaging_bridge/services/claude/response_formatter.py:11-33 | format leaves a link of `[a][(b](u)` |
| FormatterDocument.PassesShowTheDocument | src/code_messaging_bridge/services/claude/response_formatter.py:23-27 | in any sequence of words (brackets closed and before no parenthesis), images and links, the two passes show every image and link in its plain form and keep the words |
| FormatterDocument.OtherOrderBreaksImages | src/code_messaging_bridge/services/claude/response_formatter.py:23-27 | with the passes in the other order an image comes out as an exclamation mark and a link |
| FormatterDocument.OrdinaryDocumentIsCleaned | src/code_messaging_bridge/services/claude/response_formatter.py:9-33 | format leaves no image and no link of any such document |
| FormatterDocument.FormatShowsTheDocument | src/code_messaging_bridge/services/claude/response_formatter.py:18-33 | such a document of at most 10000 shown characters comes out whole, up to whitespace at its ends |
| FormatterDocument.LongDocumentSaysSo | src/code_messaging_bridge/services/claude/response_formatter.py:29-33 | a longer one comes out as its first 10000 characters and the notice that it was cut |
| FormatterFacts.FormatIsShortAndTrimmed | src/code_messaging_bridge/services/claude/response_formatter.py:16-33 | at most 10022 characters and no outer whitespace |
| FormatterFacts.FormatBlankIff | src/code_messaging_bridge/services/claude/response_formatter.py:18-33 | the result is empty iff the input is nonempty whitespace of at most 10000 characters |
| FormatterFacts.EmptyOutputIsAnswered | src/code_messaging_bridge/services/claude/response_formatter.py:20-21 | an empty output is answered by its sentence |
| RateLimiting.RateLimiter.IsAllowed | src/code_messaging_bridge/rate_limiter.py:21-37 | the answer and the new table are those of the specification; other keys are untouched |
| RateLimiting.PruningIsExact | src/code_messaging_bridge/rate_limiter.py:29-37 | after any run the stored list of a key is its unpruned history before its last call, cut off at that call's window, plus that call if let through |
| RateLimiting.StoredIsRecentHistory | src/code_messaging_bridge/rate_limiter.py:29-37 | with a positive window the stored list is the history newer than the key's last cutoff |
| RateLimiting.DecisionIgnoresPruning | src/code_messaging_bridge/rate_limiter.py:33-37 | a call is turned away iff the unpruned history fills its own window |
| RateLimiterOptimal.LimiterIsGreedy | src/code_messaging_bridge/rate_limiter.py:29-37 | a call of a key is let through iff the run's own admissions leave room in the window that ends at it, counted over the whole run |
| RateLimiterOptimal.LimiterRespectsLimit | src/code_messaging_bridge/rate_limiter.py:12-13 | no window (x, x+W] of any run holds more than max_requests admitted calls of a key |
| RateLimiterOptimal.LimiterIsOptimal | src/code_messaging_bridge/rate_limiter.py:26-37 | at every point the limiter has admitted at least as many calls as any selection with the same bound |
| RateLimiterOptimal.LimiterIsNeverLater | src/code_messaging_bridge/rate_limiter.py:26-37 | the limiter's j-th admission is never later than that of any selection with the same bound |
| IngestionInvariant.CommitKeepsConstraints | src/code_messaging_bridge/models/conversation.py:24-31 | what a handler commits meets the unique constraints of both tables |
| IngestionInvariant.StepKeepsInv | src/code_messaging_bridge/services/conversation_service.py:47-115 | every statement of every handler keeps the constraints, the lock exclusion and each handler's own assertion |
| IngestionInvariant.NoHandlerFails | src/code_messaging_bridge/services/conversation_service.py:61-71 | the RuntimeError after the retry select (and the error of a select with two rows) is unreachable |
| IngestionSerial.CommitServes | src/code_messaging_bridge/api/webhooks.py:88-107 | at its commit a handler has computed exactly what serving its request alone would do then |
| IngestionSerial.IngestionIsSerializable | src/code_messaging_bridge/api/webhooks.py:88-117 | in every reachable state the tables are those of serving the committed requests in commit order, and its tasks are the queued and the owed ones |
| IngestionSerial.FinishedRunIsSerial | src/code_messaging_bridge/api/webhooks.py:88-117 | when all handlers are done, tables and task multiset are those of one serial order of the committed requests followed by the duplicates |
| IngestionSerial.RowsAreTasksOrOwed | src/code_messaging_bridge/api/webhooks.py:106-114 | new rows = queued tasks + handlers standing or stopped between commit and enqueue |
| IngestionProgress.WaitsGoUp | src/code_messaging_bridge/services/conversation_service.py:51-115 | conversation keys are taken before message keys, so waits-for is acyclic |
| IngestionProgress.NoDeadlock | src/code_messaging_bridge/api/webhooks.py:94-107 | in every reachable state with an unfinished handler some handler can step |
| IngestionProgress.EveryRunEnds | src/code_messaging_bridge/api/webhooks.py:59-117 | no run of n handlers has more than 9n steps |
| IngestionProgress.RunsToCompletion | src/code_messaging_bridge/api/webhooks.py:59-117 | every reachable state can be run to the end |
| IngestionFacts.AtMostOncePerMessage | src/code_messaging_bridge/models/message.py:56 | each message id has at most one committed row and at most one queued task |
| IngestionFacts.TasksNameCommittedRows | src/code_messaging_bridge/api/webhooks.py:106-114 | every queued task names a committed active conversation of its sender and has its row committed |
| IngestionFacts.OneConversationPerUser | src/code_messaging_bridge/services/conversation_service.py:34-71 | any two committed requests of one user are stored in the one active conversation of that user |
| IngestionFacts.EveryRowHasItsConversation | src/code_messaging_bridge/models/message.py:45-50 | every stored row names a committed conversation, and every row stored in the run names the one active conversation of its sender |
| IngestionFacts.DuplicateIsStored | src/code_messaging_bridge/services/conversation_service.py:93-114 | a request answered as a duplicate has its message stored |
| IngestionRate.RateLimitBoundsStorage | src/code_messaging_bridge/api/webhooks.py:83-86 | of the requests of one number that arrive within one window at most max_requests are stored, in every interleaving |
| IngestionGate.WhitelistHolds | src/code_messaging_bridge/api/webhooks.py:74-80 | in every reachable state, with a nonempty whitelist every row stored in the run and every queued task is of a listed number; whoever is turned away is not listed |
| IngestionGate.BlocksIff | src/code_messaging_bridge/models/conversation.py:24-31 | an insert waits exactly for another handler's pending conversation of the same user or pending message of the same id |
| WebhookServer.Server.GetOrCreateConversation | src/code_messaging_bridge/services/conversation_service.py:34-71 | under any interference it ends with a conversation of the sender and never raises |
| WebhookServer.Server.StoreInboundMessage | src/code_messaging_bridge/services/conversation_service.py:88-115 | under any interference the row is pending, or the message is known and everything pending is rolled back |
| WebhookServer.Server.WhatsappWebhook | src/code_messaging_bridge/api/webhooks.py:75-117 | under any interference the answer is 403 iff the whitelist is nonempty and lacks the number, 429 iff the limiter has no room at that call, and nothing is stored then; otherwise OK, the message is stored, and queued unless it was a duplicate |
| WebhookServer.Server.AwaitTurn | src/code_messaging_bridge/services/conversation_service.py:59-110 | waiting for a key always ends |
| Runner.InvokeWithRetry | src/code_messaging_bridge/services/claude/runner.py:96-123 | at most R+1 attempts with the same invocation, all but the last retried failures, the last returned, base*(2^k-1) seconds slept for k retries |
| Runner.AttemptsIsUnique | src/code_messaging_bridge/services/claude/runner.py:103-120 | the number of attempts is the only one at which the loop may stop |
| Runner.RetryableIff | src/code_messaging_bridge/services/claude/runner.py:109-115 | a result is retried iff it is a failure whose message, if any, includes neither of the two phrases |
| Runner.TriesAgainIff | src/code_messaging_bridge/services/claude/runner.py:103-115 | the same of an attempt, which may also raise |
| Runner.AnswerOfOutcome | src/code_messaging_bridge/services/claude/runner.py:93-138 | success, output and session id of every outcome of the CLI |
| Runner.ErrorOfOutcome | src/code_messaging_bridge/services/claude/runner.py:68-92 | the error message of every outcome of the CLI |
| Runner.RetriesAsDocumentedIff | src/code_messaging_bridge/services/claude/runner.py:96-115 | exactly the non-zero exits are retried, except for error output that includes one of two phrases and JSON errors that include neither |
| Runner.NonZeroExitCanBeFinal | src/code_messaging_bridge/services/claude/runner.py:89-115 | a non-zero exit whose error output ends in one of the phrases is not retried |
| Runner.JsonErrorCanBeRetried | src/code_messaging_bridge/services/claude/runner.py:112-138 | a JSON error without the letters m and n is retried |
| Runner.JsonErrorWithoutResultIsRetried | src/code_messaging_bridge/services/claude/runner.py:112-138 | so is a JSON error without a result |
| Worker.Worker.SendWhatsappResponse | src/code_messaging_bridge/services/processor.py:99-118 | the posts added are the parts before the first refused one, in order, each with the user as recipient and the part as body |
| Worker.Worker.InvokeClaude | src/code_messaging_bridge/services/processor.py:54-62 | every attempt carries the conversation's session id; the last attempt decides |
| Worker.Worker.Respond | src/code_messaging_bridge/services/processor.py:81-97 | the delivered parts and one outbound row whose status says whether all were delivered |
| Worker.Worker.ProcessMessage | src/code_messaging_bridge/services/processor.py:40-97 | session update, response, posts and outbound row as specified, or an exception |
| Worker.Worker.ProcessWhatsappMessage | src/code_messaging_bridge/workers/tasks.py:64-81 | commits all of it, or leaves the committed rows as they were and tries one error notice; in the second case posts can have gone out without a row, only when the flush of the row or the commit raised |
| Worker.Worker.WorkThrough | src/code_messaging_bridge/workers/tasks.py:64-81 | over a run of tasks the committed rows are those of the run and the posts are the shares of the tasks, one after the other |
| Worker.DeliveryAgreesWithRecord | src/code_messaging_bridge/services/processor.py:81-97 | exactly one outbound row; the bodies that reached the user are a prefix of the split response, all of it iff the row says sent |
| Worker.PostsMatchRows | src/code_messaging_bridge/services/processor.py:81-118 | over any run the row of each committed task is in its place and records exactly that task's posts: the parts up to the first refusal, sent iff no part was refused |
| Worker.PostsWithoutRow | src/code_messaging_bridge/services/processor.py:81-118 | a task that adds no row has posted the parts up to the first refusal if it got as far as responding, and nothing otherwise |
| Worker.EveryRowHasATask | src/code_messaging_bridge/services/processor.py:90-97 | every row that a run adds belongs to exactly one of its committed tasks |
| Worker.RaisingTasksLeaveNoTrace | src/code_messaging_bridge/workers/tasks.py:75-79 | a run of tasks ends in the same store as the run of those that do not raise |
| Worker.EveryAttemptResumesLastSession | src/code_messaging_bridge/services/processor.py:54-73 | every attempt carries the session id stored by the last committed task on its conversation, the prompt, the working directory and the turn limit |
| WorkerLaws.LastIdIsResumed | src/code_messaging_bridge/services/processor.py:54-73 | if task i commits after its last attempt returned a nonempty session id, and no task on the conversation between i and n does, every attempt of task n carries that id |
| WorkerLaws.FirstIdIsResumed | src/code_messaging_bridge/services/processor.py:54-73 | if no earlier task does, every attempt carries the id that the conversation had to begin with |
| WorkerLaws.TaskTriesThreeTimes | src/code_messaging_bridge/services/processor.py:61-62 | one to three attempts, all but the last retried, the last one decides |
| WorkerLaws.CompletesIff | src/code_messaging_bridge/workers/tasks.py:64-79 | a task completes unless the commit, the last attempt, the flush of a nonempty session id or the flush of the row raises |
| WorkerLaws.UnknownConversationDoesNothing | src/code_messaging_bridge/services/processor.py:48-51 | for an unknown conversation nothing is run, posted or changed |
| WorkerLaws.AnswerIsPosted | src/code_messaging_bridge/services/processor.py:75-117 | the posts of a task are the parts of the formatted output, or of the apology with the error message, each to the user, up to the first refusal |
| WorkerLaws.NothingIsPosted | src/code_messaging_bridge/services/processor.py:61-73 | nothing is posted when the last attempt or the flush of the session id raises |
| WorkerLaws.AnswerIsRecorded | src/code_messaging_bridge/services/processor.py:81-97 | the row of a committed task holds that text and says sent iff every part was accepted |
| WorkerLaws.JsonAnswerIsPosted | src/code_messaging_bridge/services/processor.py:75-117 | the posted bodies are a prefix of the parts of the formatted JSON answer, all of them when every post is accepted |
| Worker.OneRowPerCommittedTask | src/code_messaging_bridge/services/processor.py:90-97 | over a run of tasks there is one outbound row per committed task |
| Pipeline.SuccessfulResponseFits | src/code_messaging_bridge/services/processor.py:76-77 | every successful output gives at most 25 messages of at most 1600 characters |
| Pipeline.TwentyFiveMessagesOccur | src/code_messaging_bridge/services/processor.py:76-77 | some successful output gives 25 messages |
| Pipeline.MessagesCarryTheText | src/code_messaging_bridge/services/processor.py:108-117 | the messages, read back in order, carry all visible text of the response |
| Pipeline.BlankMessageIff | src/code_messaging_bridge/services/processor.py:76-83 | an empty message is sent iff the output is nonempty whitespace of at most 10000 characters |
| Pipeline.LongResponseHasNoBlankBodies | src/code_messaging_bridge/services/processor.py:76-83 | a long response gives at least two messages with nonblank, trimmed bodies |
| Pipeline.PostedBodiesFit | src/code_messaging_bridge/services/processor.py:108-117 | every body posted for a successful result fits, and there are at most 25 |
| FailureMessages.ErrorMessageFitsIff | src/code_messaging_bridge/services/processor.py:79 | all error messages of a length have texts that fit iff the length is below 25 windows and 173 characters |
| FailureMessages.FailureTextFits | src/code_messaging_bridge/services/processor.py:79 | the text of every failed result with a shorter error message fits |
| FailureMessages.FailureTextCanBreakLimit | src/code_messaging_bridge/services/processor.py:79 | for every length from there on there is an error output such that, when every attempt of the CLI exits with it, the task commits and has posted a body longer than 1600 characters |
| FailureMessages.FailureBodiesAreVisible | src/code_messaging_bridge/services/processor.py:79 | no numbered message of a failed run has a blank body |

## Left out

- Splitter.Split: a text longer than a limit of 8 or less is excluded; at 8 the recursion ends for blank text only (RecursionEndsIff), below it Python's negative slice bounds apply.
- HTTP, signature validation and payload parsing: a request arrives parsed; a post is accepted or refused; retries of the provider are new handlers with the same message id.
- The subprocess and JSON parsing: a CLI run is one of its outcomes, JSON output the three fields that are used; cost, duration and turns are dropped.
- The statements of the database: SQLAlchemy's identity map and autoflush are not modelled; every statement is atomic with the semantics given above; ids of conversations are drawn without collision.
- Exactly-once delivery: a handler stopped between commit and enqueue leaves a stored message without a task; the model counts these.
- The clock is a nondecreasing input, sleeps are numbers that are added up, and the rate limiter lives in one process, as in the source.
- Concurrent workers on one conversation: session threading is proved for tasks that run one after the other.
- The hard time limit of the task queue, which can end a task without its except branch.
- update_message_status, store_outbound_message and update_claude_session_id: not called on these paths.
- Settings validation, logging, health checks, factories and migrations.
