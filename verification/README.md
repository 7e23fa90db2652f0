# Release and build tooling, modelled and proved

The repository's scripts hold several small protocols and algorithms: an engine that keeps translated locale
files in step with their English source, a scanner that looks for unsafe temporary paths, a process runner with
timers, a registry of JSON schemas, checks of release feeds, and a few text and process utilities. This project
models them in Dafny, one module per component, in the form the scripts have: objects with fields become classes,
loops stay loops, expressions become functions. Each method is proved against a specification, and what the
scripts rely on is proved about that specification for all inputs, runs or schedules. What a specification itself
rests on, such as which characters quote or when an error is a time-out, is stated once more in terms of characters,
numbers and fields.

`dafny verify dfyconfig.toml` checks everything.

## The components

**Translation sync** (`RpcClient`, `TranslateSession`, `Batches`, `LocaleTree`, `SyncLocale`, `SyncRun`).
A child process answers prompts over a line protocol whose final event carries no request id. `RpcClient` models
the client class; every event is a transition of an abstract view, and the view's books are kept over every run.
`TranslateSession` puts the client into an environment that may do anything at any time, except that each process
answers each prompt at most once and in order: batches are translated with retries, splits on time-outs and
resets, and every value returned is traced to the prompt that asked for it. `Batches` is the greedy batcher,
`LocaleTree` the flattening and rebuilding of nested maps. `SyncLocale` states what one completed sync is, and
shows that it is a fixed point; `SyncRun` is the algorithm, which reaches such a result using all of the above.

**Guardrail scanner** (`Scanner`, `WorkerPool`). The quote- and bracket-aware scanner against a definition by
counting brackets in code, and the pool of workers as interleaved steps chosen by an arbitrary scheduler.

**Process runner** (`CommandRun`). The promise, the three timers and the log against a function of the whole
history of events.

**Schema registry** (`JsonText`, `SchemaRegistry`). The canonical form and its printed text, and the index of
names by signature in which a second registration poisons the signature.

**Release feed** (`SparkleBuild`, `Appcast`). Build floors assembled from decimal strings, and the validator that
infers from the feed when the newer build scheme was adopted.

**Utilities** (`ProcessTree`, `MarkerBlock`, `ShellQuote`). The CPU sum over a possibly cyclic process listing,
the rewriting of the lines between two markers, and shell quoting against a reader for sections 2.2.1 to 2.2.3 of
the POSIX.1-2017 Shell Command Language.

`Text` and `Sorting` hold what several modules share.

## What the proofs show that the code does not

- The client on its own can hand a late reply to the wrong prompt: a refused prompt does not close it, and the next
  prompt goes to the same process. It is right about the next reply exactly when no earlier reply is still owed. The
  caller's reset after every failure is what excludes the other case.
- What a sync can come to does not depend on `--force`. The flag is read only for pending keys without a value,
  which exist only without a provider, and those have no text in the locale file; without a provider the outcome is
  determined by the input, so the flag changes nothing (lines 1554-1568 of `scripts/control-ui-i18n.ts`).
- Flattening and rebuilding are inverse only up to two corner cases, stated exactly: keys that start with a dot in
  one direction, empty maps and a map under the empty key in the other. `LeadingDotIsLost` and `EmptyMapIsLost` are
  concrete inputs.
- In an accepted release feed the lane builds are exactly those on or after one cut date, unless an old build from
  before year 1000 is dated on or after a lane build; a feed of two such releases is given.
- The process runner may write to its log after ending it. If no output follows a close event, that takes a run
  settled by an error or by giving up on a process that would not die; so runs without errors never do it exactly
  when there is no time limit.
- Rewriting a marked block twice is rewriting it once exactly when the line of the block's first end marker ends
  with the block; otherwise the document grows, as it does for a line that is the end marker itself. With a one-line
  end marker the final newline of a document is kept exactly when something follows the end marker's line.

## Model

| member | source | states |
|---|---|---|
| RpcClient.StepKeepsAccounts | scripts/control-ui-i18n.ts:1184-1305 | every event keeps the books: at most one prompt outstanding, started calls are a prefix of the calls, ids number the lines written, the outstanding prompt is the last line and the last call started |
| RpcClient.RunKeepsAccounts | scripts/control-ui-i18n.ts:1192-1319 | over every sequence of calls, lines, write failures, time-outs and exits, calls start and settle in call order with at most one outstanding |
| RpcClient.RunOnlyExtends | scripts/control-ui-i18n.ts:1240-1319 | over every run a settled call keeps its outcome, a closed client stays closed, and nothing is written once it is closed |
| RpcClient.PiRpcClient.PromptCalled | scripts/control-ui-i18n.ts:1240-1241 | a call joins the end of the queue, not started and without timers, and nothing else changes |
| RpcClient.PiRpcClient.TurnComes | scripts/control-ui-i18n.ts:1241-1301 | the next call starts: on a closed client it is rejected as "pi process unavailable" with nothing written, otherwise it is written with the next id and made the pending one with its timers armed |
| RpcClient.PiRpcClient.WritePrompt | scripts/control-ui-i18n.ts:1246-1300 | one line is written with the next id, and exactly this call becomes pending |
| RpcClient.PiRpcClient.RejectPending | scripts/control-ui-i18n.ts:1184-1190 | settles exactly the pending call, if any, with this outcome and its timers cleared, and leaves none pending |
| RpcClient.PiRpcClient.LinePrinted | scripts/control-ui-i18n.ts:1192-1238 | a response under another id changes nothing, an accepted prompt stays pending, a refused one is rejected with the error text of the response, a final event settles whatever is pending, and the handler throws exactly on a JSON null while a prompt is pending |
| RpcClient.PiRpcClient.WriteReported | scripts/control-ui-i18n.ts:1289-1299 | a write failure, however late, rejects its own call with its own error if that is still outstanding, changes nothing otherwise, and leaves the client open |
| RpcClient.PiRpcClient.TimerFired | scripts/control-ui-i18n.ts:1260-1272 | an armed timer always finds its own call pending; it rejects exactly that call as "translation prompt timed out", leaves none pending and closes the client |
| RpcClient.PiRpcClient.ProcessErrored | scripts/control-ui-i18n.ts:1164-1166 | a process error rejects exactly the pending call, with that error, and leaves the client open |
| RpcClient.PiRpcClient.ProcessClosed | scripts/control-ui-i18n.ts:1168-1173 | process exit closes the client and rejects exactly the pending call as "pi process closed", so that none is pending |
| RpcClient.PiRpcClient.CloseClient | scripts/control-ui-i18n.ts:1307-1318 | closing forbids further writes and settles nothing |
| TranslateSession.ReactKeepsPeer | scripts/control-ui-i18n.ts:1153-1305 | everything that can happen to a client and its process keeps replies in prompt order, and a retired client never comes back |
| TranslateSession.NextReplyIsOwnIffNoneIsOwed | scripts/control-ui-i18n.ts:1227-1231 | the next final event answers the outstanding prompt if and only if all earlier prompts of that process were answered |
| TranslateSession.WithoutResetALateReplyAnswersTheNextPrompt | scripts/control-ui-i18n.ts:1210-1231 | a concrete run of the client alone in which a prompt is refused and its late reply settles the next prompt |
| TranslateSession.TimeoutsAreRecognised | scripts/control-ui-i18n.ts:871-873 | the client's time-out message is taken for a time-out by the caller, whatever limit and error output it goes on with |
| TranslateSession.IsTimeoutIffMentioned | scripts/control-ui-i18n.ts:871-873 | an error counts as a time-out if and only if nine consecutive characters of it are the letters of "timed out", each in either case |
| TranslateSession.Session.GetClient | scripts/control-ui-i18n.ts:1500-1505 | the client in use is kept; without one a new client is started, to which no reply is owed, or starting it failed and nothing changed |
| TranslateSession.Session.Reset | scripts/control-ui-i18n.ts:1506-1512 | the client in use is closed and forgotten, so no reply can be owed to the next |
| TranslateSession.Session.Ask | scripts/control-ui-i18n.ts:1240-1305 | whatever happens meanwhile to any client, the prompt settles; a normal result is the reply to this very prompt |
| TranslateSession.Session.Collect | scripts/control-ui-i18n.ts:1369-1379 | succeeds exactly when every key has a non-blank string, and then has exactly the batch's keys with the parsed values; otherwise the error is "missing translation for" a key that lacks one |
| TranslateSession.Session.Attempt | scripts/control-ui-i18n.ts:1365-1380 | exactly one attempt; it succeeds with exactly the batch's keys, each value from the reply to this attempt's prompt, and fails only if no client could be started, the prompt was rejected, or the reply lacks a key |
| TranslateSession.Session.TranslateBatch | scripts/control-ui-i18n.ts:1352-1414 | terminates under every failure pattern within 4n-2 prompts; returns normally only with exactly the batch's keys, non-blank and each from the reply to a prompt that asked for it; throws only if the attempts at the whole batch failed and some part of it used up its attempts, or was a single item that timed out, with that part's error; owes no reply afterwards; the whole batch is asked for first, then after a time-out of two or more items their halves, the first rounded up, and after any other failure the whole batch once more, so that no batch is given up after one attempt unless a single item timed out |
| TranslateSession.Session.Split | scripts/control-ui-i18n.ts:1386-1401 | the two halves, split at the rounded-up middle, give the whole batch within 4n-4 further prompts, or some part of it was given up; the first half is asked for next, and the second unless the first was given up |
| Batches.BuildTranslationBatches | scripts/control-ui-i18n.ts:1085-1109 | the batches concatenate to the items in order, each fits the caps, and none could have taken the first item of the next |
| Batches.ItemCosts | scripts/control-ui-i18n.ts:897-899 | an item adds the UTF-16 lengths of its key and text and eight to the estimate, and two more to the loop's running cost; both start at two |
| Batches.ClosedWhenFull | scripts/control-ui-i18n.ts:1091-1102 | every batch but the last holds 20 items or leaves too little of the budget for the next item |
| Batches.RunningCharsBoundEstimate | scripts/control-ui-i18n.ts:1089-1101 | the loop's running cost exceeds the estimate by two per item |
| Batches.BatchesRespectCaps | scripts/control-ui-i18n.ts:897-899 | every batch has 1 to 20 items, and two or more items are within budget by the estimate |
| Batches.FirstBatchIsLongest | scripts/control-ui-i18n.ts:1091-1102 | a greedy first batch is at least as long as any fitting start of the items |
| Batches.GreedyIsOptimal | scripts/control-ui-i18n.ts:1085-1109 | a greedy split of a tail needs no more batches than any split of the whole |
| Batches.NoSplitUsesFewerBatches | scripts/control-ui-i18n.ts:1085-1109 | no order-preserving split within the caps uses fewer batches |
| LocaleTree.LeafAtSetNested | scripts/control-ui-i18n.ts:338-353 | an insertion stores its text, wipes out exactly the texts whose path conflicts with its own, and keeps all others |
| LocaleTree.PutKeepsOrder | scripts/control-ui-i18n.ts:338-353 | assigning a key keeps its place among the keys, and a new key goes last |
| LocaleTree.FlattenIsLeafAt | scripts/control-ui-i18n.ts:326-336 | flattening lists exactly the tree's texts under their dotted paths |
| LocaleTree.FlattenHasNoLeadingDot | scripts/control-ui-i18n.ts:326-336 | no flattened key starts with a dot |
| LocaleTree.LeafAtRebuild | scripts/control-ui-i18n.ts:1577-1580 | rebuilding from prefix-free keys destroys none of them: the tree holds exactly the listed texts |
| LocaleTree.FlattenedKeysArePrefixFree | scripts/control-ui-i18n.ts:326-336 | the keys of a flattened tree are prefix-free, so they can be rebuilt |
| LocaleTree.FlattenUndoesRebuild | scripts/control-ui-i18n.ts:326-353 | flattening undoes rebuilding from prefix-free keys if and only if no key starts with a dot |
| LocaleTree.LeadingDotIsLost | scripts/control-ui-i18n.ts:326-353 | the single key `.a` does not survive rebuilding and flattening |
| LocaleTree.RebuildUndoesFlatten | scripts/control-ui-i18n.ts:326-353 | rebuilding from the flattened map in any order gives the tree back if and only if it has no empty map and no map under the empty key |
| LocaleTree.EmptyMapIsLost | scripts/control-ui-i18n.ts:326-353 | a tree that holds one empty map does not survive flattening and rebuilding |
| LocaleTree.NestedKeyIsDotted | scripts/control-ui-i18n.ts:326-353 | a text under two keys is flattened under the keys joined by a dot, and rebuilt from it |
| SyncLocale.BuildMemoryByTextHash | scripts/control-ui-i18n.ts:514-526 | for every hash the index holds the entry that the memory's order and the usability test select |
| SyncLocale.ByTextFinds | scripts/control-ui-i18n.ts:514-526 | an entry is found exactly when a usable entry with that hash exists, and it is one |
| SyncLocale.LoadKeepsLast | scripts/control-ui-i18n.ts:483-500 | the loaded memory holds, for each cache key, its last line with a non-blank translation |
| SyncLocale.LoadOrderIsFirstUse | scripts/control-ui-i18n.ts:483-500 | and lists the cache keys in the order of their first such lines |
| SyncLocale.TextMatchIsLast | scripts/control-ui-i18n.ts:514-526 | a text is matched by its hash to the last entry in that order for the locale with this hash and a non-blank translation, if there is one |
| SyncLocale.MemoryComesFirst | scripts/control-ui-i18n.ts:1457-1463 | a key with a memory entry of its own gets that entry's text and keeps its fallback mark, unless it was a fallback and there is a provider |
| SyncLocale.SameTextComesSecond | scripts/control-ui-i18n.ts:1465-1474 | otherwise a key that was a fallback, or has no text in the file, gets the text of the last entry with the hash of its English text; it is no fallback, and the entry is copied under its own cache key |
| SyncLocale.ExistingComesThird | scripts/control-ui-i18n.ts:1476-1482 | otherwise a key with a text in the file keeps it and its fallback mark, unless it was a fallback and there is a provider |
| SyncLocale.OthersAreTranslated | scripts/control-ui-i18n.ts:1484-1568 | every other key is pending; with a provider it gets a non-blank text and a fresh memory entry and is no fallback, and without one it gets the English text as a recorded fallback |
| SyncLocale.LoadOfRecords | scripts/control-ui-i18n.ts:483-510 | reading a written translation memory gives the memory back, in whatever order its lines are |
| SyncLocale.MetaAddsUp | scripts/control-ui-i18n.ts:1582-1611 | the metadata count every source key once, as translated or as fallback, list the fallback keys in order, record the settings, and renew the time stamp exactly when something else changed |
| SyncLocale.ExistingReadsBack | scripts/control-ui-i18n.ts:1577-1580 | for source keys that are prefix-free and do not start with a dot, the written locale map, flattened by the next sync, is this sync's flat map |
| SyncLocale.FallbackReadsBack | scripts/control-ui-i18n.ts:1586-1602 | the next sync knows a key as fallback exactly when this one recorded it |
| SyncLocale.MemoHadPredecessor | scripts/control-ui-i18n.ts:1465-1474 | without a provider the memory gains only copies of texts it already had by hash |
| SyncLocale.NoNewText | scripts/control-ui-i18n.ts:1465-1474 | without a provider a second sync finds a text by hash only if the first could |
| SyncLocale.DecisionIsStable | scripts/control-ui-i18n.ts:1457-1490 | in a second sync every key is served from memory or file with the value it has, with and without a provider |
| SyncLocale.MetaIsStable | scripts/control-ui-i18n.ts:1582-1611 | the second sync's metadata equal the first's, time stamp included |
| SyncLocale.SyncReachesFixedPoint | scripts/control-ui-i18n.ts:1433-1611 | for source keys that are prefix-free and do not start with a dot, any second sync of the same source and provider settings that completes has nothing pending and reproduces texts, fallback keys, memory and metadata, whatever the force flag says |
| SyncLocale.SecondSyncCompletes | scripts/control-ui-i18n.ts:1433-1575 | for such keys the first sync's result, with nothing pending, is a completed result of the second sync |
| SyncLocale.OutcomeIsDetermined | scripts/control-ui-i18n.ts:1449-1568 | with nothing pending or without a provider, texts, fallback keys, memory and pending items are determined by the input |
| SyncLocale.ForceIsNotRead | scripts/control-ui-i18n.ts:1433-1575 | a result completes the sync with `--force` if and only if it does without |
| SyncLocale.ForceChangesNothing | scripts/control-ui-i18n.ts:1554-1568 | without a provider, where alone the flag is read, two completed syncs that differ in it have the same outcome |
| SyncLocale.SecondSyncCannotFail | scripts/control-ui-i18n.ts:1492-1575 | for such keys the second sync has nothing to ask the provider and cannot fail its placeholder check |
| SyncRun.DecideOne | scripts/control-ui-i18n.ts:1449-1490 | one key is decided as specified (see the four rows from SyncLocale.MemoryComesFirst on) and no other key, fallback or memory entry changes |
| SyncRun.DecideAll | scripts/control-ui-i18n.ts:1445-1490 | after the loop every key is decided as specified and the pending items are exactly the undecided keys in source order |
| SyncRun.StoreBatch | scripts/control-ui-i18n.ts:1522-1541 | every translated item enters the flat map and the memory under its own keys, everything else is kept |
| SyncRun.TranslatePending | scripts/control-ui-i18n.ts:1492-1545 | all pending items are translated and stored within 4n prompts, or some part of them was given up with the error thrown; the client is released either way |
| SyncRun.FillPending | scripts/control-ui-i18n.ts:1554-1568 | exactly the pending keys without a value get the existing or English text, and fallback keys are recorded without duplicates |
| SyncRun.CheckPlaceholders | scripts/control-ui-i18n.ts:375-422 | the sync fails exactly when some text's placeholders differ from its source's |
| SyncRun.CompleteWithProvider | scripts/control-ui-i18n.ts:1492-1568 | after a full translation every source key and no other is assigned as specified |
| SyncRun.CompleteWithoutProvider | scripts/control-ui-i18n.ts:1550-1568 | without a provider the fallback loop completes every source key as specified |
| SyncRun.NoFallbackWithProvider | scripts/control-ui-i18n.ts:1457-1568 | with a provider a completed sync ends with no fallback key |
| SyncRun.Sync | scripts/control-ui-i18n.ts:1433-1575 | a sync that completes meets the whole specification, which fixes for every key where its text comes from, with every translated value from the reply to a prompt that asked for its key; it fails only if part of the pending items was given up, or if placeholders differ in the result this run came to, every pending value of which a usable reply of this run supplied; within 4 prompts per pending key, none without a provider or without pending keys |
| SyncRun.SyncAgain | scripts/control-ui-i18n.ts:1433-1611 | for source keys that are prefix-free and do not start with a dot, after a completed sync has been written, the second sync completes, sends no prompt, and reproduces the first one's result and metadata |
| Sorting.SortIsCanonical | scripts/control-ui-i18n.ts:1586-1588 | sorting by a total order forgets the order of its input |
| Scanner.QuoteScanState.BeginQuotedSection | scripts/check-temp-path-guardrails.ts:46-52 | a quotation starts exactly at a single quote, a double quote or a backtick, and nothing else of the state changes |
| Scanner.QuoteScanState.ConsumeQuotedChar | scripts/check-temp-path-guardrails.ts:54-70 | inside quotes a backslash escapes the next character, an unescaped equal quote ends the quotation, and the state is that of the text read so far with this character added |
| Scanner.FindMatchingParen | scripts/check-temp-path-guardrails.ts:72-95 | the first unquoted closing parenthesis with balanced code before it, or -1 exactly when there is none |
| Scanner.QuotationIsInert | scripts/check-temp-path-guardrails.ts:46-95 | after code made of plain characters and finished quotations, no comma of a quotation in any of the three quotes cuts and no parenthesis of it closes; escaped quotes do not end it |
| Scanner.PlainIsCode | scripts/check-temp-path-guardrails.ts:46-70 | any other character than a quote is code there |
| Scanner.ClosesWhenBalanced | scripts/check-temp-path-guardrails.ts:72-95 | there a parenthesis closes the span if and only if as many plain parentheses were opened as closed in it |
| Scanner.CutsAreTopLevelCommas | scripts/check-temp-path-guardrails.ts:151-155 | the cuts are exactly the unquoted commas at level zero of all three brackets |
| Scanner.BracketsKeepCommas | scripts/check-temp-path-guardrails.ts:115-155 | a pair of round, square or curly brackets keeps the commas inside from cutting, and only those |
| Scanner.PieceAt | scripts/check-temp-path-guardrails.ts:97-162 | each piece is the text between two neighbouring cuts |
| Scanner.ReadCode | scripts/check-temp-path-guardrails.ts:115-155 | the three depth counters follow the bracket levels of the code read |
| Scanner.SplitTopLevelArguments | scripts/check-temp-path-guardrails.ts:97-162 | the result is the pieces between the cuts, each trimmed, without a blank last one |
| Scanner.ArgumentsAreTrimmed | scripts/check-temp-path-guardrails.ts:151-161 | each argument is its piece, trimmed, and only a blank last piece is left out |
| Scanner.ArgumentPiecesRejoin | scripts/check-temp-path-guardrails.ts:97-162 | the untrimmed pieces joined with commas are the source |
| Scanner.SpanNeverDips | scripts/check-temp-path-guardrails.ts:189-194 | no prefix of a matched span closes more parentheses than it opened |
| Scanner.SpanIsWellNested | scripts/check-temp-path-guardrails.ts:189-194 | on a matched span the cutter's clamp is never used, and it ends unquoted at parenthesis depth zero |
| WorkerPool.PresentIsReadable | scripts/check-temp-path-guardrails.ts:262-262 | once every slot is settled, filtering the slots gives the readable files in path order |
| WorkerPool.ReadableInOrder | scripts/check-temp-path-guardrails.ts:243-262 | the readable files are those with a path whose read succeeded, each once and in path order |
| WorkerPool.Pool.Claim | scripts/check-temp-path-guardrails.ts:232-242 | the claimed index was never claimed before, and the worker goes on exactly as the path demands |
| WorkerPool.Pool.Complete | scripts/check-temp-path-guardrails.ts:243-253 | the worker stores only into the slot it alone claimed: the file read, or nothing if the read failed |
| WorkerPool.ReadRuntimeSourceFiles | scripts/check-temp-path-guardrails.ts:223-263 | under every schedule all workers stop within a bounded number of steps and the result is the readable files in path order |
| CommandRun.DecisiveIsFirst | scripts/GreenchClaw-cross-os-release-checks.ts:3457-3465 | no event before the decisive one could have settled the promise |
| CommandRun.SettlesOnce | scripts/GreenchClaw-cross-os-release-checks.ts:3457-3465 | once settled, no later event changes the settlement |
| CommandRun.NextReflects | scripts/GreenchClaw-cross-os-release-checks.ts:3425-3560 | every event that can happen takes the variables of the runner to what the longer history calls for: promise, output, timers and log |
| CommandRun.ResolvesOnlyInTime | scripts/GreenchClaw-cross-os-release-checks.ts:3535-3558 | a run resolves only if it never timed out, with a non-zero exit only when exits are not checked, and a timed-out run is only ever rejected |
| CommandRun.NoTimerAfterDecisive | scripts/GreenchClaw-cross-os-release-checks.ts:3445-3465 | the time limit cannot fire after the promise was settled, nor without a limit |
| CommandRun.KillWaitNeedsTimeout | scripts/GreenchClaw-cross-os-release-checks.ts:3494-3503 | the kill-wait timer fires only after a time-out |
| CommandRun.LateWritesNeedALivingProcess | scripts/GreenchClaw-cross-os-release-checks.ts:3520-3558 | if no output follows the close event, a run whose log is written after it was ended was settled by an error or by giving up on the process |
| CommandRun.LogIsNeverLateIffNoTimeLimit | scripts/GreenchClaw-cross-os-release-checks.ts:3457-3558 | with no time limit, and only then, every run without errors and without output after its close event writes nothing to the ended log |
| CommandRun.LogIsWrittenLate | scripts/GreenchClaw-cross-os-release-checks.ts:3463-3463 | a run in which output arriving after settlement is written to the ended log |
| CommandRun.Run.Finalize | scripts/GreenchClaw-cross-os-release-checks.ts:3457-3465 | the first call settles with its outcome, disarms all timers and ends the log; later ones change nothing |
| CommandRun.Run.OnTimer | scripts/GreenchClaw-cross-os-release-checks.ts:3486-3505 | after the time limit the run is still open with only the kill-wait timer of the two armed, and its state is what its history calls for |
| CommandRun.Run.OnKillWait | scripts/GreenchClaw-cross-os-release-checks.ts:3494-3503 | the last grace period ends the run with a rejection |
| CommandRun.Run.OnClose | scripts/GreenchClaw-cross-os-release-checks.ts:3535-3558 | an open run becomes a time-out if it timed out, and otherwise fails on a non-zero code if exits are checked and resolves with the code and the collected output if not, where a missing code is 1; a settled run keeps its settlement, and no timer stays armed |
| CommandRun.Run.OnError | scripts/GreenchClaw-cross-os-release-checks.ts:3531-3533 | an error rejects the run with that error unless it was settled before |
| CommandRun.Run.OnStdout | scripts/GreenchClaw-cross-os-release-checks.ts:3520-3524 | output is collected in order, changes no settlement, and counts as a late write to the log exactly after settlement |
| CommandRun.Run.OnStderr | scripts/GreenchClaw-cross-os-release-checks.ts:3525-3529 | error output is collected in order, changes no settlement, and counts as a late write to the log exactly after settlement |
| JsonText.StableIffSame | scripts/protocol-gen-swift.ts:102-115 | two values have equal canonical forms if and only if they are equal up to key order at every depth |
| JsonText.QuoteIsPrefixCode | scripts/protocol-gen-swift.ts:117-119 | quoted strings can be told apart whatever follows them |
| JsonText.PrintIsPrefixCode | scripts/protocol-gen-swift.ts:117-119 | printed values can be told apart whatever follows them |
| JsonText.PrintedForms | scripts/protocol-gen-swift.ts:117-119 | the compact text of arrays and objects is built from the texts of their parts with commas and colons |
| JsonText.PlainTextIsKept | scripts/protocol-gen-swift.ts:117-119 | a string without quotes, backslashes and control characters is printed between quotes as it is |
| JsonText.SignatureIffSame | scripts/protocol-gen-swift.ts:102-119 | two schemas have the same signature text if and only if they are equal up to key order at every depth |
| JsonText.SignaturesOfArrays | scripts/protocol-gen-swift.ts:102-119 | arrays have the same signature if and only if their items have, place by place |
| JsonText.SignaturesOfObjects | scripts/protocol-gen-swift.ts:102-119 | objects have the same signature if and only if they have equally many members and each has a partner with its key and signature, wherever it stands |
| JsonText.SignaturesOfOthers | scripts/protocol-gen-swift.ts:102-119 | any two other values have the same signature only if they are equal |
| SchemaRegistry.Registry.RegisterNamedSchema | scripts/protocol-gen-swift.ts:121-133 | the maps and the set always describe the list of registrations: by object, and by signature with names of repeated signatures withdrawn |
| SchemaRegistry.Registry.NamedSchema | scripts/protocol-gen-swift.ts:135-140 | a registered object has its own name; structural lookup of any other schema gives n if and only if exactly one registration matches it up to key order and is named n |
| SchemaRegistry.LatestNameWins | scripts/protocol-gen-swift.ts:121-122 | the name of an object is that of its latest registration |
| SchemaRegistry.UnregisteredHasNoName | scripts/protocol-gen-swift.ts:135-140 | an object has no name of its own if and only if it was never registered |
| SchemaRegistry.SoleName | scripts/protocol-gen-swift.ts:121-140 | the list of matching names is one name exactly when a single registration matches |
| SchemaRegistry.LookupIgnoresOrder | scripts/protocol-gen-swift.ts:121-140 | structural lookup does not depend on the order of registration |
| SparkleBuild.ParseIffMatches | scripts/sparkle-build.ts:12-20 | left-to-right parsing finds the parts exactly when the text has the form of a calendar version, and the parts are then unique |
| SparkleBuild.TextIsDated | scripts/sparkle-build.ts:12-35 | a four-digit year, a month from 1 to 12 and a day from 1 to 31, with dots between them and a suffix that starts with a dot or hyphen, are a dated version |
| SparkleBuild.NoFloorsOfText | scripts/sparkle-build.ts:19-35 | with any other month or day there are no floors |
| SparkleBuild.FloorsNeedParts | scripts/sparkle-build.ts:12-20 | only texts with such parts have floors |
| SparkleBuild.ToDecimalReads | scripts/sparkle-build.ts:37-51 | printing a number in decimal and reading it back is the identity |
| SparkleBuild.AppendPadded | scripts/sparkle-build.ts:37-51 | appending a two-digit padded number multiplies by a hundred and adds it |
| SparkleBuild.FloorsArePositional | scripts/sparkle-build.ts:14-53 | floors exist exactly for valid dates, with date key 10000y+100m+d, legacy floor ten times it and lane floor a hundred times it plus the lane |
| SparkleBuild.LaneIsTheNumber | scripts/sparkle-build.ts:40-49 | the lane is 90 without a suffix, the number that ends the suffix or 89 if that is less, and 1 if no number ends it |
| SparkleBuild.LaneFloorsOrderVersions | scripts/sparkle-build.ts:37-52 | lane floors order versions by date first and then by lane, where no suffix beats every suffix |
| SparkleBuild.NumericSuffixesAreMonotone | scripts/sparkle-build.ts:40-49 | numeric suffixes are ordered by their number, saturating at 89, and a suffix without a number counts as 1 |
| Appcast.CollectAppcastSparkleVersionErrors | scripts/release-check.ts:607-664 | the list of errors in order, empty if and only if the feed is accepted |
| Appcast.ReadItems | scripts/release-check.ts:617-640 | one form error per item without a numeric version, and an entry for every other item with a valid date |
| Appcast.ReleaseIsDated | scripts/release-check.ts:632-639 | the entry of an item with a dated version and a numeric build has that build, its title and the positional floors |
| Appcast.OneReleaseVerdict | scripts/release-check.ts:642-661 | a feed of one release must reach the lane floor from a billion and from 27 February 2026 on, and the old floor otherwise |
| Appcast.CheckFloors | scripts/release-check.ts:651-661 | one error per entry below the floor that applies to it |
| Appcast.ProblemsAreTrue | scripts/release-check.ts:607-664 | exactly the problems that some item has are reported, under its title or "unknown": a missing or non-numeric version, or a build below the lane floor from 27 February 2026 or an earlier lane build on, and below the old floor before |
| Appcast.FormComesFirst | scripts/release-check.ts:607-664 | problems of form are reported before those of floors |
| Appcast.ProblemsFollowItems | scripts/release-check.ts:617-661 | both are reported in the order of the items |
| Appcast.AdoptionDateIsLeast | scripts/release-check.ts:642-649 | a date is at or after the effective adoption date exactly when it is at or after the known one or some lane build's |
| Appcast.AcceptsIffNoProblems | scripts/release-check.ts:607-664 | no errors exactly when there are items, all versions are numeric, and every dated build reaches the floor of the scheme in force on its date |
| Appcast.VerdictIgnoresOrder | scripts/release-check.ts:607-664 | the verdict depends neither on the order of the items nor on repetitions |
| Appcast.AcceptedFeedHasOneCut | scripts/release-check.ts:642-661 | with years from 1000 on, builds are lane builds exactly from the adoption date on, and every earlier build is smaller than every later one |
| Appcast.CutHoldsIffNoEarlyYearStraddles | scripts/release-check.ts:642-661 | for any accepted feed the cut holds if and only if no old build from before year 1000 is dated on or after a lane build |
| Appcast.EarlyYearsCanStraddle | scripts/release-check.ts:642-661 | two releases of January 999 form an accepted feed without a cut |
| Appcast.TextsOfTheYear999 | scripts/sparkle-build.ts:12-35 | concrete texts for those two releases |
| ProcessTree.FillTables | scripts/bench-gateway-startup.ts:636-653 | the tables hold the last CPU time of each pid and the children of each parent in row order |
| ProcessTree.CpuOfRow | scripts/bench-gateway-startup.ts:648-648 | a row's CPU time is that of its pid unless a later row repeats the pid |
| ProcessTree.ReadProcessTreeCpuMs | scripts/bench-gateway-startup.ts:624-673 | no result exactly for pid 0 and for a root that no row lists, and otherwise the sum over exactly the pids reachable through non-zero pids, each once, on any listing |
| ProcessTree.Walk | scripts/bench-gateway-startup.ts:658-672 | the work list terminates on cycles and repetitions and counts the whole tree |
| ProcessTree.CountedOnce | scripts/bench-gateway-startup.ts:663-667 | the sum over a set counts each pid once, whatever the order |
| ProcessTree.TreeIsAllReachable | scripts/bench-gateway-startup.ts:658-672 | the tree is exactly what the root reaches, never pid 0, and every descendant has a CPU time |
| MarkerBlock.LocateCuts | scripts/sync-moonshot-docs.ts:21-38 | for all markers the text is cut into whole lines before, the block from the first start marker's line to the line of the first end marker after it, and the rest; a start marker that begins with a newline leaves it to the lines before |
| MarkerBlock.RenderIsBlock | scripts/sync-moonshot-docs.ts:40-50 | the result is the lines before, the rendered block and the lines after |
| MarkerBlock.BlockLineByLine | scripts/sync-moonshot-docs.ts:40-45 | the block is the start marker, each line and the end marker on lines of their own, all but the first with the indentation |
| MarkerBlock.LocateRewritten | scripts/sync-moonshot-docs.ts:21-50 | a rewritten text is cut at the same start with the same indentation; its rest is the same exactly when the line of the block's first end marker ends with the block, and longer otherwise |
| MarkerBlock.LastRewriteWins | scripts/sync-moonshot-docs.ts:15-51 | after such a rewrite another rewrite gives what it would have given on the original text |
| MarkerBlock.IdempotentIffBlockSettles | scripts/sync-moonshot-docs.ts:15-51 | rewriting twice equals rewriting once if and only if the line of the block's first end marker ends with the block, and otherwise the text grows |
| MarkerBlock.IdempotentIffNoEarlierEndMarker | scripts/sync-moonshot-docs.ts:15-51 | for markers and lines without newlines that is the case if and only if no end marker stands in the start marker or an indented line |
| MarkerBlock.EndMarkerAsLineGrows | scripts/sync-moonshot-docs.ts:15-51 | the text of the two marker lines grows with each rewrite when the end marker itself is the line written |
| MarkerBlock.FinalNewlineKeptIffSomethingFollows | scripts/sync-moonshot-docs.ts:34-50 | for one-line end markers the result ends in a newline if and only if the text does and something follows the end marker's line |
| MarkerBlock.FinalNewlineCanBeLost | scripts/sync-moonshot-docs.ts:34-50 | a text of the two marker lines alone loses its final newline |
| MarkerBlock.FailsIffAMarkerIsMissing | scripts/sync-moonshot-docs.ts:21-28 | it fails exactly when no end marker follows a start marker |
| ShellQuote.ReadUndoesPrint | scripts/release-beta-smoke.ts:101-103 | a POSIX shell reads a space-joined list of bare, quoted and escaped words as exactly those words, empty ones included |
| ShellQuote.EscapedForms | scripts/release-beta-smoke.ts:101-103 | text without single quotes is only put between two, and each single quote in it becomes the quote form |
| ShellQuote.QuotedBodyReads | scripts/GreenchClaw-cross-os-release-checks.ts:3709-3711 | both ways of writing a quote inside single quotes read as the original text, whatever follows |
| ShellQuote.ParallelsCommandReads | scripts/release-beta-smoke.ts:150-158 | the whole text is a list of four commands, the three of the profile preamble and one that reads as `exec`, the timeout program, its two fixed options and the forwarded arguments |
| ShellQuote.CurlCommandReads | scripts/GreenchClaw-cross-os-release-checks.ts:1720-1720 | the download command reads as three words, the last being the address |
| ShellQuote.BashCommandReads | scripts/GreenchClaw-cross-os-release-checks.ts:1720-1720 | the install command reads as its fixed words and the target |
| ShellQuote.BareIffPlain | scripts/release-beta-smoke.ts:151-158 | this model's reader takes an unquoted text as itself if and only if it is a non-empty word of plain characters, so bare words are where it needs no quoting |
| ShellQuote.EscapingIsNeededIffQuoteInside | scripts/release-beta-smoke.ts:101-103 | plain single quotes are enough if and only if the text holds no single quote |

## Left out

- Spawning, files, the network, clocks and logging: they appear as events or inputs. Timers are assumed to fire in the end, and an awaited step to be resumed.
- The scan for `{name}` placeholders is a parameter; the check compares what it finds in each text and its source.
- SHA-256: `hashText` and `cacheKey` are parameters, assumed free of collisions among the texts of one source; the sync's contracts are for sources with distinct keys, which flattening guarantees.
- JSON parsing: what a line, a reply or a memory line means is an input. A line that is the JSON text `null` makes the line handler throw while a prompt is pending, which ends the script; sessions are modelled up to that point.
- `extractTranslationResult`: the text of a reply, or the failure to find one, is given with the event.
- Unicode: lower-casing in the time-out test is over ASCII. Strings are sequences of Unicode scalar values, so lone surrogates are left out; batch lengths and key order are nevertheless those of UTF-16 code units.
- `localeCompare` is any total order. Object keys keep insertion order: JavaScript's special order of integer-like keys and the special key `__proto__` are not modelled.
- LocaleTree.LeafAtSetNested: `setNestedValue` updates the tree in place; it is modelled on values, so sharing between subtrees is not captured.
- JavaScript numbers: builds, dates, CPU times and costs are unbounded integers, without the rounding of numbers above 2^53.
- The platform tests of the scripts (Windows), the failure of the process listing, and the parsing of its lines.
- The rendered locale module, glossary and prompt texts, the repair of generated string literals, and the decision whether to write files.
- Extraction of items and tags from the feed's XML, and the error texts, which are values here.
- TypeScript, acorn and oxfmt, and the regular-expression scans that surround the modelled algorithms.
- The Swift emitter, release lanes, onboarding flows, argument parsers and import-cycle checks.
- MarkerBlock.LocateRewritten: covers start markers that are not empty and do not begin with a newline, as all markers of the script do; for others the place where the start marker is found first can move with each rewrite. LastRewriteWins and IdempotentIffBlockSettles likewise.
- ShellQuote.ReadUndoesPrint: the reader refuses expansions, operators and pattern characters outside quotes instead of interpreting them.
- ShellQuote.BareIffPlain: is about this reader, which refuses some characters that a shell takes literally, such as `=` and `%`.
- ShellQuote.ParallelsCommandReads: the preamble's commands are cut out as texts; what they do to the environment is not modelled, nor do comments or braces separate commands.
- The pool's reads either yield the file or fail, once and for all; a worker's claim is one step and its read and store another, as the script's event loop has it.
