# Lifecycle manager model

A Dafny model of the lifecycle manager of a command-line tool that runs long
background jobs (`common/lifecyleMgr.go`). The manager is the single place
where terminal output is written and where the running job is supervised.

- **Output consumer** (`processOutputMessage`). It takes the queued
  Progress, Info, Prompt and Exit messages one at a time, in queue order.
  - Progress rewrites the current line in place. Erase padding
    (`matchLengthWithSpaces`) blanks what is left of a longer line.
  - Info takes over the progress line and then reprints the progress line
    below it.
  - Prompt takes over the progress line and reads one cleaned line from
    standard input as the reply.
  - Exit prints its text on a line of its own and ends the process with its
    code.
- **Line cleaning** (`readInCleanLineFromStdIn`). It reads up to the first
  `'\n'` and removes the leading and trailing runs of `'\n'` and `' '`. A
  failed read panics.
- **Progress supervisor** (`InitiateProgressReporting`).
  - A compare-and-swap on `waitEverCalled` lets only the first call start it.
  - A capacity-1 cancel channel is fed by OS signals and, when not
    interactive, by a stdin watcher that stops after the first line that is
    case-insensitively `cancel`.
  - On each tick the supervisor either tells the work controller to cancel
    (when a cancellation is pending, which it consumes) or asks it to report
    progress.

Text is a sequence of bytes, because Go's `len` counts bytes.

The model has five modules:

- `Text`: padding, line reading, the trim and the keyword test.
- `Terminal`: a reference model of the screen, used to state what the
  rendered bytes display.
  - A carriage return moves the cursor to column 0.
  - A line feed finishes the line.
  - Any other byte takes one column.
- `Serializer`: message codes, the one-message render step `Render`, and
  the consumer loop as a fold over the queue.
  - `Consumed` is the loop over any rendering step, so what the loop
    does by itself (stopping for good, reading only the messages it has
    taken) is proved once, apart from `Render`.
  - `RunAll` is the loop with `Render`. Three properties of `Render`
    connect the two: it stops the loop only at an Exit or a Prompt, it
    changes the cache only for Progress, and it keeps the screen in step
    with the cache.
- `Supervisor`: the start guard, the cancel channel, the tick choice and
  the stdin watcher, all as functions.
- `Lifecycle`: the class `LifecycleMgr`.
  - Standard output is the byte sequence printed so far and standard input
    the bytes not yet read.
  - Its methods update its fields in place. The consumer loop, the padding
    loop and the stdin watcher loop are `while` loops.
  - The polling loop is not: `PollOnce` is one pass of it, and the
    function `Supervise` describes the whole loop over a history of
    events.
  - Each method is proved to leave exactly the state the corresponding
    function of `Serializer` or `Supervisor` describes.

Three consequences of the code are worth stating. The field comment at
common/lifecyleMgr.go:63 calls the cache "useful for keeping job progress
on the last line", but that holds only in part:

- **The cache can be stale.** The Prompt branch (:157-172) overwrites the
  progress line but never assigns `progressCache`, and a reply typed at
  the prompt moves the cursor. So `RunKeepsScreen` proves the
  cache-tracks-screen invariant only for runs without prompts whose texts
  hold no `'\r'` or `'\n'`.
- **A cancel does not stop progress reports.** The select (:217-222)
  reports on every tick at which no cancellation is pending, so the tick
  after a cancel reports again (`CancelOnceThenReport`).
- **`"cancel\r\n"` is not the keyword.** `'\r'` is not in the trim cutset
  (:240), so a cancel line with a Windows line ending is not recognised
  (`CrLfCancelIsNotRecognised`).

## Model

| member | source | states |
|---|---|---|
| Serializer.TypeCode | common/lifecyleMgr.go:47-50 | the four message kinds are sent with codes 0 to 3 |
| Serializer.KindOf | common/lifecyleMgr.go:124-173 | a code is handled exactly when it is 0..3, and it maps back to the kind sent with it; any other code matches no case |
| Serializer.KindOfTypeCode | common/lifecyleMgr.go:47-50 | every kind is read back from its code, so the four codes are distinct |
| Serializer.ProgressMessage | common/lifecyleMgr.go:68-73 | Progress enqueues a message of kind Progress carrying the text |
| Serializer.InfoMessage | common/lifecyleMgr.go:75-80 | Info enqueues a message of kind Info carrying the text |
| Serializer.PromptMessage | common/lifecyleMgr.go:82-92 | Prompt enqueues a message of kind Prompt carrying the text |
| Serializer.ExitMessage | common/lifecyleMgr.go:94-99 | Exit enqueues a message of kind Exit carrying the text and the exit code |
| Text.Pad | common/lifecyleMgr.go:114-120 | the erase padding is exactly max(0, cur - new) blanks, and empty when the new line is at least as long |
| Lifecycle.LifecycleMgr.MatchLengthWithSpaces | common/lifecyleMgr.go:114-120 | the counting loop prints exactly the erase padding |
| Lifecycle.LifecycleMgr.Print | common/lifecyleMgr.go:131-132 | fmt.Print appends its bytes to standard output and changes nothing else |
| Lifecycle.LifecycleMgr.RewriteLine | common/lifecyleMgr.go:131-136 | prints "\r", the content and the padding against the cached line, in that order |
| Serializer.Render | common/lifecyleMgr.go:124-173 | one message: only Exit stops with its code; only a Prompt on input without a line break aborts; only Progress changes the cache, to its content; Progress prints 1 + max(len(cache), len(content)) bytes; a reply exactly for a Prompt that read a line; only a Prompt consumes input; an unknown code prints nothing |
| Serializer.ProgressOnScreen | common/lifecyleMgr.go:130-138 | For a text without "\r" or "\n": after Progress the current line displays the new content, and no byte of the previous progress line stays visible; no line is finished |
| Serializer.InfoOnScreen | common/lifecyleMgr.go:141-152 | For an info text and a progress line without "\r" or "\n": Info with a progress line showing: the info text takes over that line with no progress byte visible, exactly one line is finished, and the cursor line shows the progress line again with the cursor at its end; the cache is unchanged |
| Serializer.InfoOnEmptyCacheScreen | common/lifecyleMgr.go:153-155 | For a text without "\r" or "\n": Info with no progress line: the text is printed at the cursor and the line is finished, leaving an empty line |
| Serializer.PromptOnScreen | common/lifecyleMgr.go:158-166 | For a text without "\r" or "\n": Prompt with a progress line showing: the prompt takes over the line with no progress byte visible, and the cursor waits at max(len(cache), len(prompt)) |
| Serializer.PromptReply | common/lifecyleMgr.go:172 | the reply sent back is the cleaned first input line, the rest of the input stays unread, the cache is unchanged and the loop goes on |
| Serializer.PromptOnEmptyCacheScreen | common/lifecyleMgr.go:167-169 | For a text without "\r" or "\n": a Prompt with no progress line prints its bare text at the cursor, finishes no line, and leaves the cursor right after the text |
| Serializer.ExitOnScreen | common/lifecyleMgr.go:125-128 | For a text without "\r" or "\n": Exit finishes the current line, prints its text on a line of its own and leaves the cursor on an empty line |
| Serializer.InfoAfterProgressExample | common/lifecyleMgr.go:140-152 | an 11-byte progress line and a 4-byte info: "\r", the info, seven blanks, "\n", then the progress line again |
| Serializer.StepKeepsScreen | common/lifecyleMgr.go:124-155 | any message other than a prompt or an exit, whose text holds no "\r" or "\n", keeps the cursor line showing exactly the cache, when the cache holds no "\r" or "\n" either; an unknown code prints nothing and keeps it too |
| Serializer.Consumed | common/lifecyleMgr.go:123-174 | after the first n messages, for any rendering step: as many rendered as taken while the loop runs, never more, and a stopped loop has rendered at least one |
| Serializer.RenderStopsOnlyAtExitOrPrompt | common/lifecyleMgr.go:125-128 | Render stops the loop only at an Exit, and exits with its code, or at a Prompt |
| Serializer.ConsumedStopsAt | common/lifecyleMgr.go:125-128 | for a step that stops only at an Exit or a Prompt: the last message a stopped loop rendered is an Exit, whose code it carries, or a Prompt |
| Serializer.RunAll | common/lifecyleMgr.go:123-174 | the loop over the whole queue renders every message unless it stops, and then the last message rendered is an Exit, whose code it carries, or a Prompt |
| Serializer.ConsumedHalted | common/lifecyleMgr.go:125-128 | for any step: once the loop has stopped, taking more messages changes nothing |
| Serializer.ConsumedPrefix | common/lifecyleMgr.go:123-124 | for any step: the first n steps depend only on the first n messages of the queue |
| Serializer.RunHalted | common/lifecyleMgr.go:125-128 | messages queued behind a stop are never rendered |
| Serializer.ExitEndsRun | common/lifecyleMgr.go:125-128 | an Exit reached by the loop prints "\n", its text and "\n" after everything before it, ends the run with its code, changes neither the cache nor the replies, and nothing after it is rendered |
| Serializer.RenderCachesOnlyProgress | common/lifecyleMgr.go:130-138 | Render sets the cache to a Progress message's content and leaves it alone for every other message |
| Serializer.ConsumedCacheIsLastProgress | common/lifecyleMgr.go:130-138 | for a step that changes the cache only for Progress, to its content: after the messages rendered so far, the cache holds the content of the last Progress message among them, or its initial value if there was none |
| Serializer.RunCacheIsLastProgress | common/lifecyleMgr.go:123-174 | after the consumer loop, the cache holds the content of the last Progress message it rendered, or its initial value (the empty string at start) if it rendered none |
| Serializer.RenderKeepsScreen | common/lifecyleMgr.go:124-155 | Render keeps the cursor line showing exactly the cache, for every message other than a prompt or an exit whose text holds no "\r" or "\n", when the cache holds none either |
| Serializer.RunKeepsScreen | common/lifecyleMgr.go:123-155 | for a step that keeps the screen as Render does: over prompt-free messages without "\r" or "\n", the line the cursor is on shows exactly the progress cache after every message, as long as the loop runs |
| Serializer.FreshScreenKeepsCache | common/lifecyleMgr.go:17 | from a fresh terminal and the initial empty cache, the consumer loop with Render keeps the line the cursor is on (the last line) showing exactly the cache after every prompt-free, plain message, as long as the loop runs |
| Terminal.Rewrite | common/lifecyleMgr.go:134-136 | overwriting a line from column 0 with new text plus its padding leaves a line that displays the new text and nothing of the old one |
| Lifecycle.LifecycleMgr.RenderMessage | common/lifecyleMgr.go:124-173 | the switch for one message prints, caches, reads and replies exactly as Render says |
| Lifecycle.LifecycleMgr.Consume | common/lifecyleMgr.go:124-172 | one loop pass takes the state left by the first i messages to the state left by the first i + 1, collecting the prompt's reply |
| Lifecycle.LifecycleMgr.ProcessOutputMessage | common/lifecyleMgr.go:111-175 | the consumer loop leaves stdout, the cache, the unread input, the outcome and the replies exactly as RunAll over the queue says |
| Lifecycle.LifecycleMgr.constructor | common/lifecyleMgr.go:15-19 | the single instance starts with an empty cache, waitEverCalled at 0 and an empty cancel channel |
| Text.ReadLine | common/lifecyleMgr.go:236 | ReadString('\n') fails exactly when the input holds no line break; otherwise it splits the input into a line ending in its only line break and the rest |
| Text.ReadLineOfRawLine | common/lifecyleMgr.go:236 | reading stops at the first line break, whatever follows it |
| Text.Trim | common/lifecyleMgr.go:240 | the cleaned line is no longer than the input, and a non-empty one starts and ends with a byte outside the cutset {'\n', ' '} |
| Text.TrimSlice | common/lifecyleMgr.go:240 | the cleaned line is a contiguous slice of the input; only cutset bytes are cut on either side; every byte outside the cutset (a tab, a '\r') lies inside the slice |
| Text.TrimUnique | common/lifecyleMgr.go:240 | any slice left by cutting cutset bytes only, with no cutset byte at either end, is the cleaned line |
| Text.TrimSurrounded | common/lifecyleMgr.go:240 | cutset bytes around a middle that neither starts nor ends with one are cut, and the middle is kept unchanged |
| Text.TrimIdempotent | common/lifecyleMgr.go:240 | cleaning a cleaned line changes nothing |
| Text.TrimPromptReply | common/lifecyleMgr.go:240 | " y \n" cleans to "y" |
| Text.TrimAllCut | common/lifecyleMgr.go:240 | a line of blanks and line breaks cleans to the empty string |
| Text.TrimKeepsTabAndCarriageReturn | common/lifecyleMgr.go:240 | " \tcancel\r\n" cleans to "\tcancel\r": tab and carriage return are kept |
| Text.ReadCleanLine | common/lifecyleMgr.go:232-241 | the read fails exactly when the input holds no line break, and then consumes all of it; otherwise it consumes exactly one raw line (ending at the first line break), the reply is that line cleaned, and the input after it is left unread |
| Lifecycle.LifecycleMgr.ReadInCleanLineFromStdIn | common/lifecyleMgr.go:232-241 | returns the cleaned line and consumes standard input as ReadCleanLine says |
| Text.CancelKeywordSpelling | common/lifecyleMgr.go:204 | the keyword bytes spell "cancel" |
| Text.EqualFold | common/lifecyleMgr.go:204 | two lines are equal up to ASCII case exactly when they have the same length and, at every position, the same byte, or an upper-case letter against the byte 32 above it; equivalently, when lower-casing both gives the same bytes |
| Text.IsCancelWord | common/lifecyleMgr.go:204 | a line is the keyword exactly when lower-casing it gives "cancel" |
| Text.CancelWordAnyCase | common/lifecyleMgr.go:204 | "CANCEL" and "Cancel" are the keyword |
| Text.CancelWordExact | common/lifecyleMgr.go:204 | "cancel\r" and "cancelled" are not the keyword |
| Supervisor.Initiations | common/lifecyleMgr.go:184-187 | one start decision per InitiateProgressReporting call |
| Supervisor.NoInitiationAfterStart | common/lifecyleMgr.go:185-187 | once waitEverCalled is no longer 0, no call starts anything |
| Supervisor.OnlyFirstInitiationStarts | common/lifecyleMgr.go:184-187 | whatever the number of calls, exactly one starts the supervisor, the first |
| Lifecycle.LifecycleMgr.InitiateProgressReporting | common/lifecyleMgr.go:184-199 | starts exactly when waitEverCalled was 0 and then sets it to 1, starting the stdin watcher exactly when not interactive; every other call changes nothing |
| Supervisor.Notify | common/lifecyleMgr.go:193 | a delivered signal fills the slot; one that finds the slot taken is dropped |
| Lifecycle.LifecycleMgr.NotifySignal | common/lifecyleMgr.go:193 | a delivered signal changes the channel as Notify says |
| Supervisor.Send | common/lifecyleMgr.go:206 | the watcher's send fills the slot or blocks holding its value: one more cancellation is pending |
| Lifecycle.LifecycleMgr.ForwardCancel | common/lifecyleMgr.go:205-210 | the watcher sends on the cancel channel and stops watching |
| Supervisor.Receive | common/lifecyleMgr.go:218 | receiving takes one pending cancellation, and a blocked sender's value takes the slot |
| Supervisor.Tick | common/lifecyleMgr.go:216-222 | a tick calls Cancel exactly when a cancellation is pending and then consumes one; otherwise it reports and leaves the channel untouched |
| Lifecycle.LifecycleMgr.PollOnce | common/lifecyleMgr.go:216-223 | one pass of the polling loop records the call Tick decides and leaves the channel as Tick says |
| Supervisor.Supervise | common/lifecyleMgr.go:191-227 | the channel stays well formed over any history of signals, keyword cancels and ticks |
| Supervisor.SuperviseCounts | common/lifecyleMgr.go:216-222 | every tick makes exactly one controller call; Cancel calls plus cancellations still pending never exceed those pending at the start plus those that arrived |
| Supervisor.SignalThenTickCancels | common/lifecyleMgr.go:216-222 | a cancellation from either source makes the very next tick call Cancel and not report |
| Supervisor.CancelOnceThenReport | common/lifecyleMgr.go:216-222 | one pending cancellation and no new ones: the first tick cancels, and every later tick reports progress again |
| Supervisor.ReportWhileNothingPending | common/lifecyleMgr.go:220-221 | with nothing pending, every tick reports progress and the channel is unchanged |
| Supervisor.CancelWatch | common/lifecyleMgr.go:199-213 | the watcher loop over the unread input: a cancellation leaves a proper suffix of the input unread, and input without a line break ends in a failed read; WatchStopsAtFirstCancel and WatchFailsWithoutCancel below state where it ends |
| Supervisor.WatchSkipsLine | common/lifecyleMgr.go:200-204 | a line that is not the keyword is read and skipped |
| Supervisor.WatchStopsAtFirstCancel | common/lifecyleMgr.go:199-213 | lines that are not the keyword are skipped, and watching stops right after the first line that is, with nothing after it read |
| Supervisor.WatchFailsWithoutCancel | common/lifecyleMgr.go:200-201 | input that ends without a keyword line makes the watcher's last read fail |
| Supervisor.WatchFailsAtEnd | common/lifecyleMgr.go:236-237 | a read from input without a line break fails |
| Supervisor.CrLfCancelIsNotRecognised | common/lifecyleMgr.go:201-204 | "cancel\r\n" is skipped like any other non-keyword line |
| Lifecycle.LifecycleMgr.WatchCancelKeyword | common/lifecyleMgr.go:199-213 | the watcher loop either aborts when a read fails, having read all input and sent nothing and still marked as watching, or sends one cancellation and stops right after the first keyword line, leaving the rest unread, as CancelWatch says |

## Left out

- Goroutines and channels are not modelled as concurrency. The 1000-slot message queue is the in-order sequence of messages the consumer takes, so its blocking backpressure is not modelled. A Prompt's reply channel is the reply recorded in the step's result. The producers' sends are the message constructors.
- The `select {}` park in `SurrenderControl` never returns and has no state to model.
- `os.Exit` is the `Exited(code)` outcome that stops the loop. The code is an unbounded integer, so the `ExitCode` type and the `int` conversion are not modelled.
- The `PanicIfErr` panic on a failed read is the `Aborted` outcome, or `ReadFailed` for the watcher. A read fails when no line break is left in the input. Other I/O errors are not modelled.
- `Lifecycle.LifecycleMgr.WatchCancelKeyword`: in Go, a panic in the watcher goroutine (common/lifecyleMgr.go:201, :237) ends the whole process. The model ends only the watcher: the method returns `aborted` with `watchingStdin` still true, and the rest of the manager stays usable. Process termination from that goroutine is not modelled.
- `signal.Notify` is modelled only as delivery into the capacity-1 channel, without blocking. Signals that arrive before Notify is registered, and which signals are registered, are not modelled.
- A fresh `bufio.Reader` is created per read (common/lifecyleMgr.go:233) and may buffer more than the first line; whatever it buffered past that line is lost when it is dropped. The model reads exactly one line and keeps the rest of the input unread. With piped input, which is when the watcher runs, a later line (a "cancel" among them) that arrived in the same read as an earlier line would be lost in Go. `WatchStopsAtFirstCancel`, `PromptReply` and `ReadCleanLine` assume it is kept, so they describe the case where each read receives one line at a time.
- The race on standard input between a Prompt reply and the stdin watcher is not modelled. The input is one shared sequence, read by whichever reader the caller runs.
- `time.Sleep(2 * time.Second)` between ticks: timing is not modelled.
- The `WorkController` implementations are external collaborators. Their `Cancel` and `ReportProgressOrExit` calls are recorded as events, not executed.
- `Text.IsCancelWord`: `strings.EqualFold` is modelled as ASCII case-insensitive comparison of bytes. Against "cancel" this agrees with Go's Unicode folding: the only non-ASCII code points that fold to ASCII letters are U+212A (to k) and U+017F (to s), and neither letter is in the word.
- The package-level singleton initialiser and `GetLifecycleMgr` are construction plumbing. Only the initial state they set up is modelled, by the constructor.
- The terminal model counts one column per byte. Multi-byte characters and display width, tab stops and line wrapping are not modelled.
