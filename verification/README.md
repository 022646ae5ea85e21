# Verified model of the agent platform's core

A Dafny model of the parts of the platform whose correctness is hard to see by reading, with
proofs of what they promise. `dafny verify dfyconfig.toml` checks all of it.

Each component keeps the form of its Go source: records that are updated in place are classes
whose methods have the loops and branches of the source, and every such method is tied to a
specification function or to a stated property. Behaviour over whole runs, with several
goroutines or processes, is a state machine: a datatype of events, a predicate saying when an
event is possible, a function giving the state after it, an invariant, and theorems about every
state of every finite run (`Iteration.IsRun`).

| files | component |
|---|---|
| `split_scan`, `split_model`, `splitter` | the message splitter as the source writes it, and one iteration of it as a function over runes that remember their origin |
| `split_conservation`, `split_cuts`, `split_termination`, `split_divergence`, `split_exact`, `split_balance` | what the splitter keeps, where it cuts, when it ends, when it does not, that there is no third case, which chunks have an even number of fences |
| `outbound`, `pipeline_worker`, `pipeline`, `pipeline_pieces` | the bounded bus, sending with retries, the concurrent outbound pipeline, and what reaches a channel through it |
| `prompt_cache`, `prompt_cache_runs` | the modification-time checked prompt cache, and builds interleaved with writes |
| `transcript`, `agent_loop` | the history sanitizer, and the LLM/tool loop that feeds it |
| `refresh`, `refresh_runs` | the OAuth token refresh manager, and any number of interleaved callers |
| `cron`, `cron_runs`, `cron_schedule` | the scheduler, every run of it, and when each job is due in it |
| `migrate`, `media_store`, `rate_limit`, `selector`, `list_codec` | migrations, media index, fixed-window limiter, weighted selector and shared counter, list codec |
| `gostrings`, `sequences`, `iteration`, `wrappers` | trimming as Go does it, subsequences, runs, option and result |

What the proofs found where the code differs from its comments:

- **The splitter may never return.** When a fence line is longer than `maxLen - 7` runes, the last
  resort can put back at least as many runes as it emits. `SplitExact.NeverEndsIffTrapped` says
  exactly when: for every text and every limit the loop goes on for ever if and only if it comes, at
  the start or after some iterations, to a text that opens with a fence line of at least
  `maxLen - 6` runes, has no whitespace at its end or at the end of that line, and falls to the last
  resort there. A caller can check that beforehand for texts of this shape
  (`SplitDivergence.OpeningLineDecides`), and short fence lines are enough to be safe
  (`Splitter.ShortHeadersEnd`). There are texts without an end for every limit from 5 on and for none
  below (`DivergesForSomeText`). `Splitter.SplitMessage` is specified for every text on which the
  loop ends.
- **The splitter may cut a code block in two without closing it.** The comment promises the
  contrary. It happens when it falls back to a blank before an open block and that blank lies in
  an earlier block (`SplitBalance.BeforeBalance`, `BeforeMayUnbalance`), when the tentative cut
  falls inside a run of backticks (`ExtendedBalance`, `InjectedBalance`, with inputs in
  `StraddledExtensionUnbalances` and `StraddledInjectionUnbalances`), and, for limits from 5 to 9,
  when the last resort cuts into the opening fence itself (`InjectedBalance`,
  `SmallLimitMayUnbalance`).
- **A prompt can be stale although the check passes**, in two ways: a tracked file that the baseline
  did not see was read by the build and deleted again (`PromptCacheRuns.CameAndWentHappens`), or the
  build read a file that is not tracked, such as a daily note, which has changed since
  (`UntrackedGoesStale`). For builds that read only tracked files the first is the only way
  (`PassedPromptIsFresh`).
- **A spent refresh token can be presented again** in four ways: its successor could not be stored,
  the answer carried no refresh token, or the answer or a new connection handed out a token seen
  before. Each alone is enough (`RefreshRuns.EachLapseIsUnsafe`), and without all four it never
  happens (`RotationIsSafe`). A response without an expiry leaves the credential as stale as before
  (`Refresh.FreshOnlyWithANewExpiry`).
- **A live media reference can lose its file**: two references may be stored for one path, and
  releasing one can delete the file of the other (`MediaStore.SharedFileIsLost`). That can happen
  exactly while two live references to one path differ in scope or, with cleaning on, in the time they
  were stored (`SafeIffPaired`). A whole history is safe if and only if no `Store` ever adds such a
  reference (`HistoryIsSafeIff`).
- **The load is not spread by weight across users.** Each user counts its own iterations from 0, so
  the weights hold for each user's requests, not for the run (`Selector.EachUserIsFair`); where every
  user makes one request only the first scenario runs (`OneRequestEach`).
- **A blank user message can yield a request no provider takes**: `BuildMessages` leaves it out, and
  the history may end in an assistant message (`AgentLoop.FirstRequest`).
- **The cap of eight seconds on the send backoff is never reached** with three retries
  (`Outbound.CapIsNeverReached`, and the bound on the pauses of `SendWithRetry`).
- **`Down` takes version 0 for "nothing applied"** and never rolls it back (`Migrate.DownMigrator.Down`).
- **The limiter allows up to `2 * MaxAttempts - 1` requests** in an interval as long as the window,
  and not one more (`RateLimit.AtMostTwoWindows`, `BoundIsMet`).

## Model

| member | source | states |
|---|---|---|
| SplitScan.FindLastNewlineInRange | pkg/channels/split.go:188-196 | the last newline of the window, or `start - 1` when it has none |
| SplitScan.FindLastSpaceInRange | pkg/channels/split.go:200-208 | the last space or tab of the window, or `start - 1` |
| SplitScan.FindNewlineFrom | pkg/channels/split.go:177-184 | the first newline at or after an index, or -1 |
| SplitScan.FindLastUnclosedCodeBlockInRange | pkg/channels/split.go:144-162 | the greedy scan, jumping over each fence it meets, ends with the opening fence still open, or -1 |
| SplitScan.FindNextClosingCodeBlockInRange | pkg/channels/split.go:166-173 | the index behind the first fence at or after an index, or -1 |
| SplitScan.LastInIsLast | pkg/channels/split.go:188-208 | no wanted rune lies behind the one the backward searches find |
| SplitScan.NextNewlineIsFirst | pkg/channels/split.go:177-184 | no newline lies before the one found |
| SplitScan.NextClosingIsFirst | pkg/channels/split.go:166-173 | no fence lies before the closing one found |
| SplitScan.UnclosedMeaning | pkg/channels/split.go:144-162 | the scan reports an open block if and only if it met an odd number of fences, and what it reports is then a fence with an even number of fences before it |
| SplitScan.CountSplits | pkg/channels/split.go:144-162 | the fences of a range are those before a cut, the one straddling it if any, and those the scanner meets from there on |
| Splitter.TentativeCut | pkg/channels/split.go:26-52 | the cut before fences are considered equals `SplitModel.Tentative`, which `SplitCuts.CutsNaturally` describes by the windows before it |
| Splitter.OpenBlockCut | pkg/channels/split.go:67-122 | where a block whose closing fence does not fit is cut: inside, before, at its fence, or last resort |
| Splitter.NextCut | pkg/channels/split.go:40-125 | the decision of one iteration equals `SplitModel.Decide`; where it leads is said in `SplitCuts.CutsNaturally` and `SplitCuts.OpenBlocksAreCut` |
| Splitter.SkipLeadingBlank | pkg/channels/split.go:134-136 | the start moves over spaces, tabs and line ends only, and over all of them |
| SplitModel.SkipBlankFacts | pkg/channels/split.go:134-136 | everything skipped is one of the four blanks, and the rune stopped at is not |
| Splitter.SplitMessage | pkg/channels/split.go:13-140 | for every text on which the loop ends, its chunks are those of the tagged run, whose cuts `SplitCuts` describes, each is at most `maxLen` runes, and together they are the content minus whitespace plus injected runes; limits up to 0 return the content whole |
| Splitter.ShortHeadersEnd | pkg/channels/split.go:13-140 | the loop ends on every text whose fence lines are short |
| Splitter.SplitIsUnique | pkg/channels/split.go:13-140 | the chunks do not depend on when one looks, once the loop has ended |
| Splitter.FinishedSplit | pkg/channels/split.go:13-140 | whenever the loop has ended its chunks fit and account for the content |
| Splitter.MirrorsReopen | pkg/channels/split.go:91-120 | rebuilding the text with closing and repeated opening fence is, origins forgotten, the tagged rebuilding |
| SplitConservation.EveryChunkFits | pkg/channels/split.go:32-137 | for all texts and all limits from 1, after any number of iterations, every chunk has at most `maxLen` runes |
| SplitConservation.AdvanceConserves | pkg/channels/split.go:91-98 | each iteration, rebuilding ones included, loses only whitespace and adds only injected runes |
| SplitConservation.EveryRunConserves | pkg/channels/split.go:32-137 | at every moment chunks and remaining text together hold each non-blank rune of the content once and in order |
| SplitConservation.FinishedRunConserves | pkg/channels/split.go:32-140 | when the loop has ended the chunks alone do |
| SplitConservation.EachRuneOnce | pkg/channels/split.go:91-136 | every rune of the content that is not whitespace stands at exactly one place of the output, and none at two |
| SplitCuts.CutsNaturally | pkg/channels/split.go:26-136 | in every iteration of every run with more than a chunk left there is one natural cut: the last newline among the 200 runes before `start + effectiveLimit`, without one behind `start` the last space or tab among the 100 before it, without either that place itself; when no block is open there the chunk ends there, and exactly the blanks behind it are skipped |
| SplitCuts.WordsAreCutOnlyAtNeed | pkg/channels/split.go:41-52 | such a cut falls inside a word only when those windows hold no newline and no blank |
| SplitCuts.OpenBlocksAreCut | pkg/channels/split.go:54-136 | in every iteration with a block open at the natural cut: the chunk goes on to the end of the next fence when that fits; otherwise, by where its first line ends, the block is closed and re-opened with that line at the last newline below it or the end of the chunk, or the cut is at a newline, a blank or the fence before it, or the last resort |
| SplitCuts.RestIsEmittedWhole | pkg/channels/split.go:33-37 | what fits into one chunk is emitted whole, and the loop is over |
| SplitCuts.FittingTextIsWhole | pkg/channels/split.go:32-37 | a text within the limit is its only chunk, and the empty text has none |
| SplitTermination.SecondSearchNotBefore | pkg/channels/split.go:82-90 | the second newline search never lands before the first cut, because the two windows overlap |
| SplitTermination.ReopeningShrinks | pkg/channels/split.go:82-120 | splitting well inside a block always shortens the text; the last resort does when fence lines are short; both keep fence lines short |
| SplitTermination.EveryIterationShrinks | pkg/channels/split.go:32-137 | `totalLen - start` drops in every iteration when fence lines are short, and they stay short |
| SplitTermination.Terminates | pkg/channels/split.go:13-140 | the loop ends within `len(content) + 1` iterations when fence lines are short |
| SplitDivergence.TrapScan | pkg/channels/split.go:54-121 | what a last resort at an opening fence line rests on: the cut, the header, and no fence that would close the block within the chunk |
| SplitDivergence.RebuiltIsTrap | pkg/channels/split.go:113-120 | with a long opening line the rebuilt text falls to the last resort at the same line: it repeats the window and moves later fences no nearer |
| SplitDivergence.StaysStuck | pkg/channels/split.go:113-120 | so the whole iteration leads from such a text to such a text |
| SplitDivergence.OnceTrappedNeverEnds | pkg/channels/split.go:32-137 | a loop that stands at such a text with an opening line of at least `maxLen - 6` runes, at the start or after any number of iterations, never ends |
| SplitDivergence.OpeningLineDecides | pkg/channels/split.go:32-137 | for a text longer than a chunk that opens with a fence line, falls to the last resort there, has no whitespace at its end or at the end of that line, and no other long fence line, the loop ends if and only if that line has at most `maxLen - 7` runes |
| SplitExact.NeverEndsIffTrapped | pkg/channels/split.go:32-137 | for every text and every limit the loop never ends if and only if it comes to a trap with an opening line of at least `maxLen - 6` runes: there is no other way to go on for ever |
| SplitExact.EndsOrIsTrapped | pkg/channels/split.go:32-137 | for limits from 10 on the loop ends or is trapped after finitely many iterations, from any state |
| SplitExact.StepIsLighter | pkg/channels/split.go:54-137 | for those limits an iteration away from a trap lowers the weight of the long lines that are left, less a third of the first line of a rebuilt text, or keeps it and lowers the number of runes |
| SplitExact.LongHeaderIsLighter | pkg/channels/split.go:113-120 | repeating a long header lowers that weight unless the block is the one a rebuilt text opens with |
| SplitExact.SmallEndsOrIsTrapped | pkg/channels/split.go:32-137 | for limits from 5 to 9 as well, from any state |
| SplitExact.RebuiltConsumes | pkg/channels/split.go:59-121 | at those limits a rebuilt text is a trap or its block is closed within the next chunk |
| SplitExact.ClosingLowers | pkg/channels/split.go:59-120 | and then the last resort and the iteration after it together lower the weight of the lines, or keep it and lower the number of runes |
| SplitDivergence.DivergesForSomeText | pkg/channels/split.go:26-120 | there is a text on which the loop never ends if and only if the limit is at least 5 |
| SplitBalance.AdvanceEmits | pkg/channels/split.go:91-131 | each cutting iteration appends exactly the chunk the balance lemmas speak of |
| SplitBalance.UncutBlocksBalance | pkg/channels/split.go:54-56 | chunks cut where no block is open, or at the fence that opens one, have an even number of fences |
| SplitBalance.ExtendedBalance | pkg/channels/split.go:59-63 | a chunk extended to the closing fence is balanced if and only if no fence straddles the tentative cut or the straddling one overlaps the closing one |
| SplitBalance.InjectedBalance | pkg/channels/split.go:79-121 | for every limit, a chunk closed by an injected fence is balanced if and only if, from a limit of 10 on, no fence straddles the tentative cut, and, below, the cut lies behind the opening fence |
| SplitBalance.CutsBehindFenceFromTen | pkg/channels/split.go:82-113 | from a limit of 10 on it always does |
| SplitBalance.CleanCutsBalance | pkg/channels/split.go:54-121 | for every limit, with a tentative cut outside backtick runs and no fallback to a blank before the block, a chunk is balanced if and only if it is not a reopening cut into its own opening fence |
| SplitBalance.BlankCutsAreClean | pkg/channels/split.go:45-52 | a tentative cut at a newline or blank is never inside a backtick run |
| SplitBalance.BeforeBalance | pkg/channels/split.go:101-107 | a chunk cut at a blank before the block is balanced if and only if the text between that blank and the block is |
| SplitBalance.EveryCutChunkBalances | pkg/channels/split.go:32-137 | over the whole loop and for every limit, while no cut falls inside backticks, into the fence it reopens, or back to a blank before a block, every chunk but the final remainder has an even number of fences |
| SplitBalance.BeforeMayUnbalance | pkg/channels/split.go:101-107 | such a chunk can be unbalanced: a family of texts |
| SplitBalance.SmallLimitMayUnbalance | pkg/channels/split.go:113-115 | with limit 5 the chunk can be a lone closing fence: a family of texts |
| SplitBalance.StraddledExtensionUnbalances | pkg/channels/split.go:59-63 | a text whose tentative cut falls inside backticks and whose extended chunk is unbalanced |
| SplitBalance.StraddledInjectionUnbalances | pkg/channels/split.go:113-115 | a text whose tentative cut falls inside backticks and whose closed chunk is unbalanced |
| Outbound.MessageBus.PublishOutbound | pkg/bus/bus.go:63-79 | closed and cancelled are checked first, then the select decides; a message is appended exactly when accepted |
| Outbound.MessageBus.SubscribeOutbound | pkg/bus/bus.go:81-90 | the oldest message is taken, also after closing |
| Outbound.MessageBus.Close | pkg/bus/bus.go:121-154 | the first close drops what all three buffers hold, a second one does nothing |
| Outbound.SendWithRetry | pkg/channels/manager.go:503-558 | at most four attempts; a rate limit, a temporary or an unknown error is followed by another one unless it was the fourth or the context was cancelled, and nothing else is; delivered exactly when edited or the last attempt succeeded; the pauses are a second after a rate limit and otherwise a half, one and two |
| PipelineWorker.TextsAreTheSplit | pkg/channels/manager.go:478-487 | for messages longer than the limit, on which splitting ends, the pieces are what `SplitMessage` returns, each within the limit, together the message |
| PipelineWorker.TextsFit | pkg/channels/manager.go:478-487 | for every positive limit and every content no text a worker sends is longer than the limit |
| PipelineWorker.FittingIsWhole | pkg/channels/manager.go:478-491 | a content within the limit, or on a channel without one, is sent whole as one piece |
| PipelineWorker.WorkKeepsFlow | pkg/channels/manager.go:470-493 | no step of a worker but skipping after a cancellation changes what was heard followed by what is still to be sent |
| PipelineWorker.LostHearsNothing | pkg/channels/manager.go:505-508 | after a piece was skipped for a cancellation the channel hears nothing new |
| PipelineWorker.WorkKeepsRetries | pkg/channels/manager.go:515-547 | each repeated attempt repeats the piece just tried after a retryable error, at most three times |
| PipelineWorker.SendingIsTheMethod | pkg/channels/manager.go:515-547 | uninterrupted, the steps of a worker log exactly the attempts that `SendWithRetry` counts, `Sends(world, 0)`, with their numbers and results, then move on |
| Pipeline.BusKept | pkg/bus/bus.go:63-154 | received and buffered messages form a subsequence of the accepted ones, all of them until the bus is closed; the buffer never exceeds 64 |
| Pipeline.ChannelsKept | pkg/channels/manager.go:560-622 | every step of publishers, bus, dispatcher and workers keeps, for every channel, the tally of heard, queued and held against received |
| Pipeline.AcceptIsPublish | pkg/bus/bus.go:63-79 | a message accepted by an open bus is one call of `PublishOutbound` |
| Pipeline.ReceiveIsSubscribe | pkg/bus/bus.go:81-90 | a message received by the dispatcher is one call of `SubscribeOutbound` |
| Pipeline.CloseIsDrain | pkg/bus/bus.go:121-154 | closing and the draining steps that follow, uninterrupted, are one call of `Close` |
| Pipeline.FirstAttemptsInOrder | pkg/channels/manager.go:470-622 | in every run the first attempts on a channel begin the pieces of a subsequence of the messages the bus accepted for it, and of a prefix of them until the bus is closed |
| Pipeline.NothingIsLost | pkg/channels/manager.go:470-622 | until closing or cancellation, what was accepted for a channel is exactly what it heard, then what worker, dispatcher and bus hold, in order |
| Pipeline.AtRestAllWasHeard | pkg/channels/manager.go:470-622 | when all queues are empty and the worker idle, the channel has heard every piece of every accepted message, in order and once |
| Pipeline.PublishersKeepTheirOrder | pkg/bus/bus.go:63-79 | messages of one publisher are accepted in its order and none twice |
| Pipeline.BoundsAndRetries | pkg/channels/manager.go:33-36 | in every run the buffers stay within 64 and 16, and a repeated attempt repeats the piece just tried, as one of at most three, after an error that calls for it |
| PipelinePieces.EveryEntryFits | pkg/channels/manager.go:470-493 | in every run whatever a channel was asked to send belongs to a message accepted for that channel, which is no internal one, has at most the channel's limit of runes, and is the content itself when that fits |
| PipelinePieces.NoRetryIsLeftOut | pkg/channels/manager.go:515-547 | in every run until a cancellation, an attempt below the fourth that failed for a rate limit, a temporary or an unknown error is followed by the next attempt at the same piece |
| PipelinePieces.EveryMessageWasSent | pkg/channels/manager.go:470-622 | at rest each message accepted for a registered, running channel that is no internal one was sent: whole when it fits, and otherwise every chunk `SplitMessage` makes of it |
| PromptCache.ContextBuilder.StatPaths | pkg/agent/context.go:224-237 | the existence of every listed path and the greatest time among them |
| PromptCache.ContextBuilder.BuildCacheBaseline | pkg/agent/context.go:222-267 | existence of every listed path, time of every file below a root, and the greatest time of them all, or one second after the epoch when none exists |
| PromptCache.BaselineIsUnique | pkg/agent/context.go:222-267 | for given files there is exactly one such baseline |
| PromptCache.ContextBuilder.WalkRoot | pkg/agent/context.go:240-252 | the walk stamps exactly the files below the root and counts them for the maximum |
| PromptCache.ContextBuilder.FileChangedSince | pkg/agent/context.go:311-328 | the four cases of existence then and now, and the time comparison |
| PromptCache.ContextBuilder.SkillFilesChangedSince | pkg/agent/context.go:340-395 | changed if and only if a stamped file is gone or has another time, or an unstamped one appeared below a root |
| PromptCache.ContextBuilder.SourceFilesChangedLocked | pkg/agent/context.go:276-301 | changed if and only if there is no baseline or some path fails its part of the check |
| PromptCache.ContextBuilder.BuildSystemPromptWithCache | pkg/agent/context.go:129-167 | the cached prompt when either check passes, otherwise the built one, cached with the baseline taken before the build |
| PromptCache.ContextBuilder.InvalidateCache | pkg/agent/context.go:172-182 | afterwards no files whatever give a hit |
| PromptCache.FreshBaselinePasses | pkg/agent/context.go:254-264 | a baseline passes the check against the files it was taken from, an empty workspace included |
| PromptCache.PassesIff | pkg/agent/context.go:276-395 | against a baseline taken at one instant the check passes at another if and only if every listed path exists as it did and is no later than the latest tracked file was, and below the roots there are the same files with the same times |
| PromptCache.EmptyBaseline | pkg/agent/context.go:254-264 | with nothing tracked the baseline is one second after the epoch |
| PromptCacheRuns.StepKeepsInv | pkg/agent/context.go:148-158 | whatever is written, deleted or read during a build, a file no newer than the baseline is what the build read |
| PromptCacheRuns.PassedIsCurrent | pkg/agent/context.go:303-328 | at any moment of any run, for a tracked path the check lets pass, the cached read equals a read now, if and only if the file did not appear between baseline and read |
| PromptCacheRuns.FreshBuildIsUnique | pkg/agent/context.go:94-124 | builds made at one instant read the same, each read being chosen by what the earlier ones found |
| PromptCacheRuns.PassedPromptIsFresh | pkg/agent/context.go:129-158 | when the check passes and only tracked paths were read, the cached reads are a whole build made now if and only if no file came and went; every build made now then gives the cached prompt |
| PromptCacheRuns.TameRunsAreCoherent | pkg/agent/context.go:129-167 | in every run that deletes no file created after the baseline, with a build that reads only tracked paths, whenever the check passes the cached prompt is the one every build made now gives |
| PromptCacheRuns.CameAndWentHappens | pkg/agent/context.go:320-326 | a run in which the check passes although a build made now is told something else, the file being gone |
| PromptCacheRuns.UntrackedGoesStale | pkg/agent/context.go:187-195 | a run in which the check passes although a file read but not tracked has changed |
| PromptCacheRuns.CompleteBaselineIsOne | pkg/agent/context.go:222-267 | taken step by step without interference, the baseline is the one `BuildCacheBaseline` returns |
| PromptCacheRuns.QuietIsNeverRebuilt | pkg/agent/context.go:129-158 | when nobody touches the files, whatever was cached has their one baseline and passes the check ever after |
| Transcript.SanitizeHistoryForProvider | pkg/agent/context.go:543-606 | the loop with its backward walk computes `Sanitize` |
| Transcript.AcceptsIffValid | pkg/agent/context.go:550-602 | a message is kept if and only if the transcript stays one providers take: nothing is dropped that could stay |
| Transcript.SanitizedIsValid | pkg/agent/context.go:543-606 | for every history: no system message, every tool message answers an assistant with calls, every assistant with calls follows a user or tool message |
| Transcript.SanitizedIsSubsequence | pkg/agent/context.go:543-606 | the output is the history with messages left out |
| Transcript.FixedIffValid | pkg/agent/context.go:543-606 | a history passes unchanged if and only if it is valid |
| Transcript.Idempotent | pkg/agent/context.go:543-606 | sanitizing twice is sanitizing once |
| Transcript.WalkRefinesBit | pkg/agent/context.go:566-575 | the backward walk always agrees with a one-bit automaton |
| Transcript.WalkFindsAnswer | pkg/agent/context.go:564-575 | the walk succeeds if and only if the nearest earlier message that is no tool result asked for tools |
| Transcript.RoundKeepsValidIff | pkg/agent/loop.go:962-1053 | appending an assistant message with calls and its results keeps a transcript valid if and only if it ended in a user or tool message |
| AgentLoop.HistoriesAreFixed | pkg/agent/loop.go:617-636 | histories of any number of answered or failed turns, uncompressed, pass the sanitizer unchanged |
| AgentLoop.TurnKeepsValid | pkg/agent/loop.go:617-636 | a whole turn appended to a valid transcript keeps it valid |
| AgentLoop.CompressionKeepsShape | pkg/agent/loop.go:1100-1149 | compression orphans at most the tool results right behind the cut |
| AgentLoop.SanitizedSession | pkg/agent/context.go:559-580 | of a stored session the sanitizer drops exactly those orphans |
| AgentLoop.AgentSession.BuildMessages | pkg/agent/context.go:514-540 | one system message, the sanitized history, and the user's text as last message unless it is blank |
| AgentLoop.AgentSession.ForceCompression | pkg/agent/loop.go:1100-1149 | four messages or fewer stay; otherwise the first message, marked, and those from the middle on; the session keeps its shape |
| AgentLoop.AgentSession.CallModel | pkg/agent/loop.go:810-885 | one to three attempts: the first on the given session and request, each other one the same again after a timeout, or after a context error the session compressed and the request rebuilt from it; the last is answered, fails for good or is the third; session and requests are then those of the attempts |
| AgentLoop.CallIsDetermined | pkg/agent/loop.go:810-885 | the replies, the session and the first request decide all attempts |
| AgentLoop.RetryIs | pkg/agent/loop.go:836-880 | a retry follows a timeout with the same request, or a context error with the compressed session and a request for it without a message |
| AgentLoop.AttemptFacts | pkg/agent/loop.go:836-880 | every attempt works on a session of the right shape that can be continued, and sends a good request if the first was; without context errors all attempts are the first one again |
| AgentLoop.AgentSession.OneIteration | pkg/agent/loop.go:731-1055 | the first of one to three requests is the given one; the next request is the last one sent plus the assistant message and its tool results, if any; the reply is the model's; without context errors session and request grow by the same messages; requests stay good |
| AgentLoop.AgentSession.RunLLMIteration | pkg/agent/loop.go:722-1058 | the first request is the given one, and if it is one providers take, so is every later one; at most the allowed number of rounds, each the model's reply to a later request than the one before; the answer is the model's last reply, a failure its failure; without context errors the session grows by exactly the rounds |
| AgentLoop.AgentSession.RunTools | pkg/agent/loop.go:962-1054 | session and request both grow by the assistant message with its calls and the result of each call, in order |
| AgentLoop.AgentSession.AddMessage | pkg/agent/loop.go:617-636 | the stored session keeps its shape |
| AgentLoop.AgentSession.RunAgentLoop | pkg/agent/loop.go:600-636 | a turn keeps the session's shape; its first request is the past and the user's text; the answer returned and stored is the model's, or the default one in place of none; only good requests are sent unless the message is blank and the past ends in an answer; without context errors exactly the turn is added |
| AgentLoop.FirstRequest | pkg/agent/context.go:525-540 | the first request is good if and only if the message is not blank or the sanitized past ends in a user or tool message |
| AgentLoop.CompressedRequest | pkg/agent/loop.go:865-872 | the request rebuilt after compression is good |
| Refresh.TokenRefreshManager.GetCredMutex | pkg/oauth/refresh_manager.go:381-391 | one mutex a key, the same one every time, and no two keys share one |
| Refresh.TokenRefreshManager.DoRefresh | pkg/oauth/refresh_manager.go:309-378 | when the stored credential expires within five minutes and has a refresh token, the provider answers and the vault takes it, the new credential has the answer's access token, is active, has what else the answer gives and keeps what it leaves out, and no other credential changes; otherwise nothing changes, and a fresh credential is returned as it is; retry state is cleared exactly on success |
| Refresh.TokenRefreshManager.EnsureFresh | pkg/oauth/refresh_manager.go:213-238 | a credential that does not expire within five minutes is returned as it is; a stale one is refreshed as by `DoRefresh`, or refused without a refresh token; what is returned is what the vault then holds |
| Refresh.TokenRefreshManager.RefreshCredential | pkg/oauth/refresh_manager.go:189-209 | a credential with a refresh token is refreshed as by `DoRefresh`; failures change nothing |
| Refresh.TokenRefreshManager.MaybeRefresh | pkg/oauth/refresh_manager.go:165-184 | the sweep goes ahead if and only if retries are left and the delay is over |
| Refresh.TokenRefreshManager.BackgroundRefresh | pkg/oauth/refresh_manager.go:283-306 | a failure counts one retry and delays the next by the doubled delay; a success clears the count |
| Refresh.TokenRefreshManager.ResetRetries | pkg/oauth/refresh_manager.go:264-269 | the count of that credential alone is cleared |
| Refresh.GateIs | pkg/oauth/refresh_manager.go:165-184 | after any history of failures, successes and resets, of any credentials, the sweep goes ahead if and only if there was no failure since the last clearing, or fewer than `MaxRetries` and the pause of `RetryDelay * 2^(n-1)` after the n-th is over |
| Refresh.PausesDouble | pkg/oauth/refresh_manager.go:283-306 | the first failure pauses the sweep for `RetryDelay`, and each further one twice as long as the one before |
| Refresh.KeysDiffer | pkg/oauth/refresh_manager.go:394-396 | no two credentials share a key as long as no user name holds a colon |
| Refresh.KeysMayCoincide | pkg/oauth/refresh_manager.go:394-396 | with colons two credentials can share one |
| Refresh.GivenUpForGood | pkg/oauth/refresh_manager.go:165-184 | after `MaxRetries` failures the sweep never goes ahead again, whatever else happens, until a success or a reset |
| Refresh.FreshOnlyWithANewExpiry | pkg/oauth/refresh_manager.go:340-357 | after a refresh the credential is fresh if and only if the response carries an expiry far enough away |
| Refresh.SecondRefreshAsksNobody | pkg/oauth/refresh_manager.go:318-333 | a second refresh behind a success with a fresh expiry changes nothing |
| RefreshRuns.RereadIsLive | pkg/oauth/refresh_manager.go:313-324 | a token re-read under the mutex is never one whose replacement is about to be stored |
| RefreshRuns.EveryStateInv | pkg/oauth/refresh_manager.go:309-378 | in every interleaving mutexes are owned by those past them, stored tokens are their credential's own, and a spent one is excused or being replaced |
| RefreshRuns.OneCallPerCredential | pkg/oauth/refresh_manager.go:309-340 | no two callers are ever calling the provider for one credential, or for two whose keys coincide |
| RefreshRuns.SpentTokensStaySpent | pkg/oauth/refresh_manager.go:318-367 | a refresh token that succeeded is never presented again, unless its success carried no refresh token, the successor could not be stored, or the token was handed out again |
| RefreshRuns.RotationIsSafe | pkg/oauth/refresh_manager.go:318-367 | when every success brings a refresh token and is stored, and no token is handed out twice, no refresh token is ever presented after it has succeeded |
| RefreshRuns.EachLapseIsUnsafe | pkg/oauth/refresh_manager.go:309-367 | each of these conditions is needed: for any one of the four lapses there is a run from the start that commits no other and presents a token that has succeeded |
| RefreshRuns.LostSuccessorIsPresentedAgain | pkg/oauth/refresh_manager.go:359-361 | when storing the successor fails the next waiter presents the spent token |
| RefreshRuns.LostSuccessorHappens | pkg/oauth/refresh_manager.go:309-361 | a run from the start in which that happens, whatever the provider answered |
| RefreshRuns.WaitersMakeNoCall | pkg/oauth/refresh_manager.go:326-333 | after a stored refresh, while the credential is fresh, no caller makes a provider call for it |
| RefreshRuns.StoredIsLastWritten | pkg/oauth/refresh_manager.go:340-367 | in every run a credential is stored if and only if the last write about it was no deletion, and it then has the access token of the answer, or connection, that was written last, and that answer's refresh token and expiry where it gave them |
| RefreshRuns.AloneIsTheWholeCall | pkg/oauth/refresh_manager.go:309-378 | run without interference, the steps do to the vault what `DoRefresh` is specified to do |
| Cron.CronService.Start | pkg/cron/service.go:82-104 | reloads the file and saves, unless already running; every enabled job waits for what its schedule gives now, no other changes |
| Cron.CronService.RecomputeNextRuns | pkg/cron/service.go:282-290 | every enabled job waits for what its schedule gives now: its time when still ahead, a period from now, or the library's tick; no other changes |
| Cron.CronService.CheckJobs | pkg/cron/service.go:135-168 | hands out exactly the enabled jobs whose next run has come, and clears theirs and no other; nothing when stopped |
| Cron.CronService.FinishJob | pkg/cron/service.go:202-243 | write-back to the first job with the id: start and outcome are noted; a one-shot job is deleted or disabled, another waits for what its schedule gives now; without such a job nothing changes |
| Cron.CronService.RemoveJob | pkg/cron/service.go:400-425 | exactly the jobs with that id go, the others stay in order, and the file is written if any did |
| Cron.CronService.EnableJob | pkg/cron/service.go:427-451 | the first job with that id, and no other, is switched, and waits for what its schedule gives now or for nothing |
| Cron.CronService.AddJob | pkg/cron/service.go:343-384 | the new job is enabled, to be deleted after its run exactly when it is one-shot, waits for what its schedule gives now, and is appended and saved |
| Cron.FindIsFirst | pkg/cron/service.go:202-208 | the search stops at the first job with the id |
| CronRuns.RecomputeKeepsPromise | pkg/cron/service.go:246-261 | recomputing never gives a claimed one-shot job a next run, nor a recurring one a next run less than a period after a claim |
| CronRuns.TickKeepsLog | pkg/cron/service.go:143-163 | the claims of a tick are due and far enough from all earlier ones |
| CronRuns.TickKeepsJobs | pkg/cron/service.go:153-163 | after a tick no claimed job has a next run |
| CronRuns.FinishKeeps | pkg/cron/service.go:201-243 | writing back keeps the invariant, whatever happened to the job meanwhile |
| CronRuns.StepKeepsInv | pkg/cron/service.go:82-451 | every tick, write-back, enabling, removal, addition, start, stop, reload and restart keeps the invariant |
| CronRuns.OneShotAtMostOnce | pkg/cron/service.go:135-239 | in every run a one-shot job is claimed at most once |
| CronRuns.RecurringClaimsApart | pkg/cron/service.go:135-261 | in every run two claims of a recurring job are at least its period apart |
| CronRuns.OnlyEnabledAndNoneForgotten | pkg/cron/service.go:135-239 | in every run only enabled jobs whose time has come are claimed, and while the service runs every enabled recurring job waits or is being executed |
| CronSchedule.OneShotWaitsForItsTime | pkg/cron/service.go:246-251 | in every run an enabled one-shot job whose time lies ahead has exactly that time as next run, and never another one |
| CronSchedule.RecurringWaitsOnePeriod | pkg/cron/service.go:253-259 | in every run an enabled recurring job that waits does so for a period from when its next run was last computed, so no longer than a period from now |
| CronSchedule.ExpressionWaitsForItsTick | pkg/cron/service.go:261-277 | in every run an enabled expression job that waits does so for the tick the library gives for the moment its next run was last computed |
| CronSchedule.NoJobIsForgotten | pkg/cron/service.go:135-290 | while the service runs every enabled job of any kind waits or is being executed, unless its schedule gave it nothing |
| CronSchedule.DueJobIsClaimed | pkg/cron/service.go:135-168 | a tick at or after the next run of an enabled job logs it, hands it out and clears its next run; every other job stays as it is |
| Migrate.NewFromList | pkg/dbmigrate/dbmigrate.go:90-112 | the migrations by strictly increasing version; refused if and only if two share a version |
| Migrate.SortKeepsDistinct | pkg/dbmigrate/dbmigrate.go:95-109 | sorting neither hides nor creates duplicate versions |
| Migrate.Database.Transact | pkg/dbmigrate/dbmigrate.go:227-249 | script and version row succeed together or nothing has happened |
| Migrate.Database.MaxVersion | pkg/dbmigrate/dbmigrate.go:194-210 | the greatest recorded version, or 0 |
| Migrate.Migrator.Up | pkg/dbmigrate/dbmigrate.go:116-143 | whether it fails or not, the record is a prefix of the list and the schema its replay; it succeeds if and only if everything is applied, and a failure is that of the next migration |
| Migrate.Migrator.Pending | pkg/dbmigrate/dbmigrate.go:173-191 | exactly the rest of the list behind the recorded prefix |
| Migrate.Migrator.Version | pkg/dbmigrate/dbmigrate.go:194-210 | the version of the last recorded migration, or 0 |
| Migrate.DownMigrator.FindDown | pkg/dbmigrate/down.go:125-132 | the first down script of a version, or that there is none |
| Migrate.DownMigrator.Rollback | pkg/dbmigrate/down.go:93-122 | undoes the last recorded migration or changes nothing |
| Migrate.DownMigrator.Down | pkg/dbmigrate/down.go:45-59 | rolls back one migration; version 0 counts as nothing applied |
| Migrate.DownMigrator.DownTo | pkg/dbmigrate/down.go:64-90 | ends, and on success exactly the versions above the target are gone; a failure leaves a prefix and names its cause |
| Migrate.DepthDetermines | pkg/dbmigrate/dbmigrate.go:116-143 | the recorded set determines the schema |
| Migrate.DownToThenUp | pkg/dbmigrate/down.go:64-90 | rolling back and running up again, both without failure, restores schema and record |
| MediaStore.FileMediaStore.Store | pkg/media/store.go:91-109 | a file that exists is added with its scope; the maps stay inverse |
| MediaStore.FileMediaStore.Resolve | pkg/media/store.go:112-121 | the path of a live reference, an error for any other |
| MediaStore.FileMediaStore.ReleaseAll | pkg/media/store.go:138-170 | exactly the references of other scopes stay, and the paths of those that go are returned, one each |
| MediaStore.FileMediaStore.CleanExpired | pkg/media/store.go:175-220 | with a positive maximal age exactly the entries no older than it stay, and otherwise all; the paths of those that go are returned, one each |
| MediaStore.FileMediaStore.Drop | pkg/media/store.go:194-204 | one reference leaves all three maps, and its scope with the last of them |
| MediaStore.LiveOrRemovedOnce | pkg/media/store.go:138-220 | in every history each stored reference is live or was removed by exactly one operation |
| MediaStore.SafeIffPaired | pkg/media/store.go:138-220 | no sequence of releases and cleanings ever hands back the file of a live reference if and only if any two live references to one path have the same scope and, with cleaning on, the same time |
| MediaStore.PutKeepsPairedIff | pkg/media/store.go:91-109 | storing keeps that if and only if the new reference is like every live one to its path |
| MediaStore.HistoryIsSafeIff | pkg/media/store.go:91-220 | a history is safe at every moment if and only if each reference it stores was like the live ones to its path |
| MediaStore.RemovedFilesAreDead | pkg/media/store.go:138-220 | in such a history a file handed back for deletion belongs to no reference live at that moment |
| MediaStore.FreshFilesAreRemovedOnce | pkg/media/store.go:138-220 | in every history that stores no path twice, a file handed back for deletion belongs to no live reference and is handed back once |
| MediaStore.FreshPathsAgree | pkg/media/store.go:91-109 | a history that stores no path twice meets the condition |
| MediaStore.SharedFileIsLost | pkg/media/store.go:138-170 | with one path under two references, releasing one scope hands back the file of the live other |
| RateLimit.AuthRateLimiter.Allow | pkg/middleware/authratelimit.go:74-94 | a new address or an expired window begins with one request, which is allowed; another request counts, and is allowed while fewer than `MaxAttempts` came before it |
| RateLimit.AuthRateLimiter.Cleanup | pkg/middleware/authratelimit.go:105-109 | exactly the entries whose window is over go |
| RateLimit.SweepsChangeNothing | pkg/middleware/authratelimit.go:74-113 | sweeps anywhere in a trace with non-decreasing times change no answer |
| RateLimit.AtMostTwoWindows | pkg/middleware/authratelimit.go:74-94 | in any interval as long as the window at most `2 * max(1, MaxAttempts) - 1` requests of an address are allowed |
| RateLimit.BoundIsMet | pkg/middleware/authratelimit.go:74-94 | a trace that reaches the bound |
| RateLimit.QuietIsNeverRefused | pkg/middleware/authratelimit.go:74-113 | an address that makes at most `MaxAttempts` requests in any interval as long as the window is never refused, whatever others do and whenever it is swept |
| Selector.ScenarioSelector.Pick | pkg/loadtest/loadtest.go:581-592 | the one scenario whose stretch of a cycle holds the iteration, the stretches being as long as the positive weights, and 1 for the others |
| Selector.ScenarioSelector.constructor | pkg/loadtest/loadtest.go:560-577 | the cumulative weights, and as total their sum, non-positive ones counted as 1 |
| Selector.OwnerIsUnique | pkg/loadtest/loadtest.go:581-592 | no iteration belongs to two scenarios |
| Selector.Fair | pkg/loadtest/loadtest.go:560-592 | wherever a cycle starts, it picks a scenario with a positive weight exactly that often and any other once; a cycle is as long as the sum of those numbers |
| Selector.FairByWeight | pkg/loadtest/loadtest.go:560-592 | with positive weights any `sum(weights)` consecutive iterations pick each scenario exactly its weight of times |
| Selector.PicksOfAUser | pkg/loadtest/loadtest.go:301-316 | a user starts at iteration 0: in whole cycles a scenario is picked its share of times each, in a begun cycle as often as the cycle has gone beyond the shares of the scenarios before it |
| Selector.EachUserIsFair | pkg/loadtest/loadtest.go:278-328 | in every state of every run a user with `n` requests has run scenario `i` exactly as often as its first `n` iterations pick it, and the run's count is the sum over users |
| Selector.OneRequestEach | pkg/loadtest/loadtest.go:301-316 | where no user has made more than one request only the first scenario has run |
| Selector.CounterIsExact | pkg/loadtest/loadtest.go:278-328 | however many users share the counter, at most `TotalRequests` run, and exactly that many once all have found it empty |
| ListCodec.MarshalStringSlice | pkg/beta/beta.go:823-833 | the loop prints what `Print` says |
| ListCodec.UnmarshalStringSlice | pkg/beta/beta.go:835-856 | the loop parses what `Parse` says |
| ListCodec.ParseIsSeparable | pkg/beta/beta.go:846-854 | whatever is parsed, no element is empty or holds a comma |
| ListCodec.ReadsElements | pkg/beta/beta.go:835-856 | of any list between brackets, with blanks around it and its elements and quotes or none around each, exactly the non-empty elements are read, in order |
| ListCodec.ReadsBareElements | pkg/beta/beta.go:841-856 | the brackets may be missing |
| ListCodec.ReadsNothing | pkg/beta/beta.go:836-839 | blank text, empty brackets and `null` are the empty list |
| ListCodec.PrintOneMore | pkg/beta/beta.go:823-833 | each further element is printed behind a comma, between quotes, before the closing bracket |
| ListCodec.PrintOne | pkg/beta/beta.go:823-833 | the empty list is printed as two brackets, and one element between quotes and brackets |
| ListCodec.EscapeOneMore | pkg/beta/beta.go:829-830 | a backslash goes before every double quote, and nothing else changes |
| ListCodec.ElementRoundTrip | pkg/beta/beta.go:849-850 | a quoted element is read back if and only if it holds no double quote |
| ListCodec.RoundTripIff | pkg/beta/beta.go:823-856 | printing then parsing gives a list back if and only if every element is non-empty and free of commas and double quotes |

## Left out

- SplitTermination.Terminates: short fence lines are sufficient, and the exact condition is that of `SplitExact.NeverEndsIffTrapped`, which speaks of the states of the run; a long fence line that never is the open one at a cut does no harm.
- Splitter.SplitMessage: strings are sequences of runes; invalid UTF-8, which Go replaces by U+FFFD when it makes runes, is not modelled. On a text on which the loop does not end there is no result to speak of; what holds of every iteration is stated of the run (`SplitConservation`).
- Outbound.SendWithRetry: waiting for the limiter is one outcome; its token arithmetic is library code.
- Pipeline.FirstAttemptsInOrder: `SendToChannel`, `UnregisterChannel` and the closing of worker queues by `StopAll` are not events of the machine, so every message comes through the bus. Media messages take the same path and are not modelled.
- Pipeline.NothingIsLost: a message whose splitting does not end stays with its worker for ever.
- PromptCacheRuns.PassedIsCurrent: each path is judged at the instant it is looked at; every write gets a later time than all before it, and later than one second after the epoch, so two writes within one clock tick are outside.
- PromptCache.ContextBuilder.SkillFilesChangedSince: walk errors other than a missing directory, and blank roots, which `SkillRoots` never returns, are not modelled.
- PromptCacheRuns.PassedPromptIsFresh: it speaks of builds that read tracked paths only; the daily notes are read without being tracked. What a build takes from elsewhere than files, such as the clock and the environment in the identity section, is held fixed.
- AgentLoop.AgentSession.RunAgentLoop: summarization, which truncates the history, the wording of prompts and of the compression note, media and the fallback chain of providers.
- Refresh.TokenRefreshManager.DoRefresh: encryption and SQL of the vault; the checks `Store` makes on its argument count as failed writes. Two processes on one vault share no mutex and are outside.
- RefreshRuns.SpentTokensStaySpent: a provider whose answer is lost on the way counts as having refused, and no provider hands out for one credential a token that it handed out for another.
- Refresh.TokenRefreshManager.BackgroundRefresh: Go's 64-bit durations may overflow after very many retries; the delay here is unbounded.
- CronRuns.OneShotAtMostOnce: `UpdateJob`, which writes arbitrary jobs, failed saves and a clock that goes back are outside; job identifiers are never reused.
- Cron.CronService.CheckJobs: the cron expression library is a parameter, about which nothing is assumed.
- Migrate.Migrator.Up: a failing query of the version table, other than inside a transaction, and the file loader.
- Migrate.Database.Transact: the database is a map of tables; a failed transaction is taken to leave no trace.
- MediaStore.FileMediaStore.Store: identifiers are fresh, as random ones are taken to be; deleting the returned paths from disk is outside.
- RateLimit.AuthRateLimiter.Allow: the time of a request is read before the lock is taken, so with contention times may reach the entry out of order; traces are sorted.
- Selector.CounterIsExact: ramp-up and think time only delay, and are not modelled; neither is `runByDuration`, in which users share no counter.
- The transport around these parts: HTTP handlers, configuration, metrics, logging, channels, providers, billing.
