# ZetDB: a model of the server's core and its proofs

ZetDB is a Redis-like key-value server. This project models its parsers, session loop,
storage engine, append-only log, snapshots, replies and counters in Dafny, and proves what
they promise for every input, every interleaving or every run.

`dafny verify dfyconfig.toml` checks everything.

## How it is built

| module | what it holds |
|---|---|
| `Bytes`, `Domain` | bytes, little-endian fields, decimal text, wrapping arithmetic; commands, values, command names |
| `RespParser`, `FrameGrammar`, `Deadlines` | the RESP array parser, its exact language, what TTL options mean on the clock |
| `InlineParser`, `InlineRefinement`, `InlineMeaning` | the two inline parsers, where they agree, what a line means against the RESP protocol |
| `Session`, `InlineSession`, `MixedStream` | the buffer loops under any division into reads, with errors among the commands |
| `Engine`, `EngineRuns`, `EngineTasks` | the TTL engine: one call, sequential runs against an abstract map, interleaved tasks |
| `AofCodec`, `Replay`, `Snapshot`, `Recovery`, `RecoveryFile` | the binary log, its replay, snapshots and compaction, start-up from both |
| `Ledgers`, `Restart`, `RestartExamples` | what a restart from the writer's file makes of every key, and when that is what was live |
| `AofWriter`, `WriterTasks`, `WriterRecovery`, `LiveRewrite` | the batching writer alone, shared by tasks, what its file restores, a rewrite under load |
| `Response`, `InlineReplies`, `Dispatcher`, `ClientView`, `Server` | replies and their decoders, the two dispatchers, what replies mean, the whole server end to end |
| `Metrics` | per-thread counters moved in batches to shared atomics |

Code that updates state in place is a class or a method with a loop, proved against a
function of its inputs; the laws are lemmas about those functions. Concurrent parts are state
machines: a task takes one step per map call or per lock acquisition, and theorems quantify
over every sequence of enabled steps. Clock readings, the iteration order of the concurrent
map, network chunks, the INFO text and the CRC are inputs that the theorems leave arbitrary.

## What turned out false, and exactly when it holds

Each of these has a lemma with an input, a run or a whole family where it fails, and beside it
the condition under which the property does hold, for all inputs.

- A log cut inside an MSET past its pair count is misread; the leftover bytes of a key can
  flush the database (`AofCodec.TornMsetFlushes`, exact condition in `AofCodec.TornTail` and
  `Replay.TornReplay`). A torn tail is not cut off before the file is appended to again, and can
  swallow later records (`AofCodec.TornTailSwallows`; none are lost behind a clean end,
  `AofCodec.ContinuedLog`).
- A record of a key of 2^16 bytes or of a TTL of zero reads as another command
  (`AofCodec.LongKeySpills`; exact condition in `AofCodec.RecordExact` and `AofCodec.LogExact`).
- A restart does not always show what was live. Start-up replays every record at start-up time,
  so relative TTLs start again: an expired key returns and a counter can differ
  (`RestartExamples.ExpiredKeyReturns`, `RestartExamples.ExpiredCounterDiffers`); a key set with a
  TTL of zero becomes permanent (`RestartExamples.ZeroTtlReturns`); doubled INCRs count twice. A
  key is restored at every start-up time if and only if its ledger is safe
  (`Restart.RestartExact`). Since the key was last set plainly, deleted, flushed or expired at once
  by EXPIRE, that means: no deadline that its record keeps; no TTL that its record drops and that
  has run out, unless INCR has made a number of it again; and the restored counter ahead by zero
  modulo 2^64, where each batch-filling INCR puts it ahead by one and a TTL that ran out by the
  count it had.
- The entry that fills a batch is logged twice. Replaying a record twice shows if and only if it
  is an INCR that adds one (`AofWriter.DoubledEntryHarmless`), and then a restart counts it twice
  (`RestartExamples.DoubledIncrementRestored`).
- With several appenders the second copy can land behind a later write of the same key, so that
  start-up restores the older value although both clients were answered
  (`WriterRecovery.StaleWriteRecovered`). A key whose appends take turns is always restored as
  written, whatever happens to other keys (`WriterRecovery.TurnsRecover`).
- Under `everysec` the lock order is reversed and an append and a tick deadlock for good
  (`WriterTasks.EverysecDeadlocks`, `WriterTasks.DeadlockIsForever`); under `always` and `no`
  this cannot happen (`WriterTasks.NoDeadlock`).
- A SET between the dump's visit of its key and the rename is lost from the log
  (`LiveRewrite.OverlappingSetIsLost`; never for keys apart from the rewrite,
  `LiveRewrite.RewriteKeepsKey`).
- INCRs before a snapshot are counted again at start-up (`Recovery.IncrementsCountTwice`). A key
  is restored exactly if and only if the log sets or drops it somewhere, or no INCR of it
  precedes the snapshot (`Recovery.RecoveryWithIncr`); with the doubled records of the writer's
  file, the batch-filling INCRs since then are added (`RecoveryFile.RecoveryFromFile`).
- Two INCRs of an expired key can both return 1 (`EngineTasks.ExpiredIncrementIsLost`); one counts
  if nothing else writes the key between its two calls (`EngineTasks.ExpiredIncrementCounts`).
- The limit on keys can be exceeded by one key per additional task, and no more
  (`EngineTasks.CapacityBound`, `EngineTasks.BoundIsTight`).
- The fast inline parser loses the byte before a bare LF and reads some lines differently
  (`InlineRefinement.BareLineFeedDiffers`). `InlineRefinement.ParsersAgree` says for every buffer
  whether it agrees with the simple one. A buffer that is a single LF makes the inline loop
  advance past its end (`InlineSession.LoneLineFeedPanics`); lines ended by CR LF never do
  (`InlineSession.SmallLinesStayOpen`).
- A frame of an unknown command is dropped line by line. When a read ends behind its verb, the
  rest of the frame and the frames behind it go to the inline loop, and a well-formed one is lost
  (`MixedStream.CutBehindVerb`). The division into reads never matters if and only if no bad frame
  with more than a verb has a well-formed frame behind it (`MixedStream.UnderstoodExactly`).
- An inline value is sent as a simple string, so one with a CR, or that reads PONG or OK, is
  misread (exact condition in `InlineReplies.InlineReplyDecodes`). Some lines mean something other
  than the same words as an array (`InlineMeaning.LineIsArray`, `InlineMeaning.DifferentLine`).
- A RESP array header that counts zero, or wraps to it, blocks its connection for ever
  (`Session.ZeroHeaderWedges`); exactly those do (`Session.EmptyCommandIs`,
  `Session.RoundProgress`).
- The error reply to an INCR of a non-integer quotes the key, so a key with a CR garbles the
  reply stream (`Dispatcher.GarbledReply`, exact condition in `Dispatcher.DispatchDecodes`).
- `command_count` adds only the calling thread's counter, although its comment says all threads
  (`Metrics.CommandCountMisses`, exact condition in `Metrics.CommandCountIs`).

`docs/AOF.md` describes a textual log; the code writes the binary format, and the model follows
the code. Integer arithmetic wraps because the release profile sets no overflow checks
(Cargo.toml:36-40).

## Model

| member | source | states |
|---|---|---|
| Server.EndToEnd | src/server/session.rs:189-275 | commands → frames → arbitrary chunks → RESP session → dispatch → replies, log writer, file: the read buffer ends empty, the client decodes exactly the dispatcher's replies, and a restart from the writer's file, at any start-up clock, shows the live value of every key with a safe ledger, and on a server that started empty of exactly those |
| Server.InlineEndToEnd | src/server/session.rs:278-335 | the same for inline lines, valid or not, answered through `dispatch_to_buffer`, with the failed writes that this loop logs; unless a value holds a CR or looks like PONG or OK, the client decodes exactly the replies and errors of the lines, in order |
| Server.TypedEndToEnd | src/server/session.rs:278-335 | a list of commands without TTL, typed as lines and cut into any reads, runs as exactly that list, and the client decodes its replies |
| Server.MixedEndToEnd | src/server/session.rs:216-275 | the same as `EndToEnd` for a stream that mixes well-formed frames with frames of an unknown command: the former are run in order and every dropped line gets one error |
| Server.InlineDecodes | src/protocol/response.rs:38-111 | a list of inline replies and errors decodes to exactly that list |
| Server.RestartsHold | src/storage/aof.rs:40-71 | from the file that the writer leaves after any run: keys with a safe ledger are always restored, and from an empty start exactly those |
| Server.ExecIsRun | src/server/session.rs:216-335 | handling events one by one, in either loop, gives the map, the log and the reply bytes of the dispatcher's run on their commands |
| Session.ChunkingIndependence | src/server/session.rs:189-275 | however the encoding of a list of well-formed commands is split into reads, an open session has run exactly that list, sent exactly its replies and holds an empty buffer; a session closed by a limit has run a prefix |
| Session.SmallStreamStaysOpen | src/server/session.rs:199-341 | a stream and replies within the two 1 MiB limits never close the session |
| Session.CommandsHaveFrames | src/bin/redis_compare.rs:31-40 | every list of sendable commands has a well-formed stream that stands for exactly that list |
| Session.RespLoop | src/server/session.rs:216-275 | the RESP buffer loop (also that of `handle_session_fast`, whose rounds differ only in what is behind the handler) terminates on arbitrary bytes and yields the events, the remaining bytes and the replies of the reference drain |
| Session.ErrorRecovery | src/server/session.rs:216-275 | a buffer with a syntax error or an unknown command yields one error, of its kind, and then exactly what the bytes behind its first LF yield; without an LF nothing is left |
| Session.LineAmongArrays | src/server/session.rs:216-275 | a line among the arrays costs exactly itself: a command is run, a blank line is silent, anything else gets one error |
| Session.InlineLoop | src/server/session.rs:278-335 | the inline buffer loop, including the advance past the end of the buffer that panics |
| Session.InlineErrorRecovery | src/server/session.rs:278-335 | the same recovery in the inline loop |
| Session.HandleSession | src/server/session.rs:176-361 | the outer loop over reads, with both size limits, is the fold of one-read turns |
| Session.ClosesExactly | src/server/session.rs:176-361 | one read closes the session if and only if it is empty, fills the buffer over 1 MiB, makes the loop panic, or yields over 1 MiB of replies; nothing of that read is then sent |
| Session.NeverPanics | src/server/session.rs:216-275 | no buffer makes the RESP loop advance past its end |
| Session.BorrowedProgress | src/server/session.rs:278-335 | each inline round consumes at least one byte, and claims a byte too many exactly when the buffer is a single LF |
| Session.EmptyCommandIs | src/protocol/parser.rs:402-404 | the parser answers with an empty command if and only if the buffer starts with a whole array header whose count is zero in 64-bit arithmetic |
| Session.RoundProgress | src/server/session.rs:216-275 | on every buffer that is not waiting for bytes the loop consumes something, unless the header counts zero, and then nothing |
| Session.ZeroHeaderWedges | src/server/session.rs:216-275 | once such a header is at the front of the buffer nothing is dispatched or sent again, whatever arrives |
| Session.WrittenCountWedges | src/protocol/parser.rs:694-746 | a decimal count wedges if and only if it is a multiple of 2^64 |
| MixedStream.UnderstoodExactly | src/server/session.rs:216-275 | every division into reads runs the well-formed frames in order, with one error per dropped line, if and only if no bad frame with more than a verb has a well-formed frame behind it |
| MixedStream.MixedChunking | src/server/session.rs:189-275 | then an open session has handled exactly those events and holds an empty buffer |
| MixedStream.CutBehindVerb | src/server/session.rs:216-335 | otherwise a read that ends behind the verb of a bad frame sends the rest to the inline loop, and the events differ |
| MixedStream.WholeIsUnderstood | src/server/session.rs:216-275 | read at once, every such stream runs its well-formed frames in order and answers each dropped line with one error |
| MixedStream.ReadsMixed | src/server/session.rs:189-335 | the induction over reads: whatever is pending is handled as if it had come at once |
| MixedStream.BadVerdict | src/protocol/parser.rs:385-688 | header and verb decide that a command is unknown, whatever follows |
| InlineSession.InlineChunking | src/server/session.rs:278-335 | however CR LF-terminated inline lines, valid or not, are cut into reads, an open session has answered exactly those lines in order and holds nothing back |
| InlineSession.SmallLinesStayOpen | src/server/session.rs:199-341 | only the limits close such a session; in particular it never panics |
| InlineSession.LoneLineFeedPanics | src/server/session.rs:278-335 | a buffer that is a single LF makes the inline loop advance past its end |
| RespParser.FrameStable | src/protocol/parser.rs:101-111 | a complete or failed verdict is the same on every extension of the buffer |
| RespParser.FrameRoundTrip | src/protocol/parser.rs:385-688 | parsing inverts the encoder on every well-formed argument vector, whatever follows the frame |
| RespParser.ProperPrefixIncomplete | src/protocol/parser.rs:385-688 | every proper prefix of a well-formed frame is incomplete |
| FrameGrammar.FrameExactly | src/protocol/parser.rs:385-768 | the exact language of the parser: it takes n bytes for a command if and only if the buffer starts with a frame of n bytes that means it, with lengths in any spelling, null strings, bare LFs and unread terminators |
| FrameGrammar.VectorVerdict | src/protocol/parser.rs:385-688 | the verdict on every whole vector of up to 1024 strings, well-formed or not: its command, the verb alone for commands without arguments, an unknown command, or a syntax error |
| FrameGrammar.WireWaits | src/protocol/parser.rs:385-768 | every proper prefix of such a frame is incomplete |
| FrameGrammar.BadHeader | src/protocol/parser.rs:385-401 | a header that is no number, negative or above 1024 is a syntax error |
| FrameGrammar.BrokenFrame | src/protocol/parser.rs:412-768 | a frame that breaks off at something that is no string is a syntax error |
| FrameGrammar.ArgsExactly | src/protocol/parser.rs:412-688 | the verdict on the arguments follows from reading all of them; while they are not all there it is never a command |
| RespParser.CommandOfArgs | src/protocol/parser.rs:412-687 | the argument vector of every sendable command means that command |
| Domain.CaseDoesNotMatter | src/protocol/parser.rs:795-797 | command and option names select the same in any case |
| Deadlines.ExIsPx | src/protocol/parser.rs:175-186 | `SET k v EX n` and `SET k v PX 1000n` are the same command, over RESP and in the simple inline parser |
| Deadlines.TtlFramesParse | src/protocol/parser.rs:451-528 | the same through whole frames |
| Deadlines.BareSeconds | src/protocol/parser_borrowed.rs:144-188 | the third word of an inline SET is seconds to the fast parser |
| Deadlines.ExOnTheWire | src/protocol/parser.rs:486-490 | from the frame of `SET k v EX n` at t the key is seen exactly before t + n·10^9 ns, and TTL at t answers n |
| Deadlines.SetLives | src/domain/value.rs:12-46 | how long a key set with n seconds is seen |
| Deadlines.ExpireLives | src/storage/dashmap_engine.rs:139-189 | how long a live key is seen after EXPIRE |
| RespParser.ParseRespFrame | src/protocol/parser.rs:385-412 | the array header, its limits and the verb lookup compute the reference frame |
| RespParser.ParseRespArgs | src/protocol/parser.rs:413-688 | the per-command argument rules, including commands that leave extra arguments in the buffer |
| RespParser.ParseRespKey | src/protocol/parser.rs:433-450 | single-key commands |
| RespParser.ParseRespSet | src/protocol/parser.rs:451-528 | SET with two arguments or with EX or PX |
| RespParser.ReadRespLineInt | src/protocol/parser.rs:694-746 | the length line: prefix, sign, digits with 64-bit wrap-around, CR LF |
| RespParser.DigitLoop | src/protocol/parser.rs:732-737 | the digit loop with wrapping arithmetic equals the wrapped decimal value |
| RespParser.ReadRespBulk | src/protocol/parser.rs:750-768 | a bulk string and its length |
| RespParser.ReadRespBulks | src/protocol/parser.rs:640-685 | the loop that reads the arguments of MGET and MSET |
| RespParser.TryParseFrame | src/protocol/parser.rs:101-111 | the choice between RESP and inline by the first byte |
| InlineRefinement.FastParserRefinesSimple | src/protocol/parser_borrowed.rs:23-115 | on every clean buffer the fast and the simple inline parser give the same verdict, consumed count and command if and only if the line is not a SET with a third argument or an accepted option, nor an EXPIRE whose seconds carry a plus sign or exceed 64 bits |
| InlineRefinement.ParsersAgree | src/protocol/parser_borrowed.rs:23-115 | for every buffer, the two inline parsers agree if and only if there is no line, or the line ends in CR LF or in a blank and LF and is not divergent, or ends in a word and LF and survives the loss of its last byte |
| InlineRefinement.BareLineFeed | src/protocol/parser_borrowed.rs:25-36 | lines ended by a bare LF: at the front the fast parser claims a byte too many; elsewhere both consume the line and agree exactly when, command by command, the lost byte does not matter |
| InlineRefinement.CommandsChop | src/protocol/parser_borrowed.rs:43-115 | the meaning of a line without the last byte of its last word is that of the line if and only if it survives: PING, INFO, DBSIZE or an unknown verb with an argument, EXPIRE of zeros, and lines that fail either way |
| InlineRefinement.WordsChop | src/protocol/parser_borrowed.rs:25-36 | the words of a line whose last byte is cut off |
| InlineRefinement.CommandsAgree | src/protocol/parser_borrowed.rs:43-115 | the same at the level of the words of a line |
| InlineRefinement.SecondsAgree | src/protocol/parser_borrowed.rs:342-354 | the two number readers agree exactly on texts without plus sign and overflow |
| InlineRefinement.BareLineFeedDiffers | src/protocol/parser_borrowed.rs:25-36 | `PING` and a bare LF: a ping for the simple parser, an unknown command for the fast one |
| InlineMeaning.LineIsArray | src/protocol/parser.rs:24-89 | the words of a line mean what the same words mean as an array, if and only if they are none of: PING, INFO or DBSIZE with arguments, SET with three or more than four arguments, more than 1024 words |
| InlineMeaning.DifferentLine | src/protocol/parser.rs:24-89 | what the line and the array mean in each of those cases |
| InlineMeaning.LineMeans | src/protocol/parser.rs:24-89 | the line of every sendable command whose arguments are words means that command |
| InlineMeaning.FastLineMeans | src/protocol/parser_borrowed.rs:43-115 | to the fast parser it does if and only if it has no TTL option |
| InlineMeaning.TypedLineParses | src/protocol/parser.rs:101-111 | the same from the bytes of the line to the verdict and the consumed count of both parsers |
| InlineMeaning.WordsExactly | src/protocol/parser.rs:772-793 | the words of a line are exactly the strings that runs of blank, tab, CR and LF separate |
| InlineMeaning.WordsOfJoined | src/protocol/parser.rs:772-793 | splitting inverts joining with blanks |
| InlineParser.DigitWraps | src/protocol/parser_borrowed.rs:342-354 | wrapping after each digit is wrapping once at the end |
| InlineParser.Trim | src/protocol/parser.rs:772-782 | the two-ended scan removes exactly the surrounding blanks |
| InlineParser.NextWord | src/protocol/parser.rs:784-789 | trim and split give the first word and the rest, in terms of the list of words |
| InlineParser.ParseBytes | src/protocol/parser.rs:24-89 | the simple parser computes the meaning of a line from its words |
| InlineParser.ParseSimple | src/protocol/parser.rs:30-89 | dispatch on the verb of the simple parser |
| InlineParser.ParseSingleKey | src/protocol/parser.rs:246-268 | exactly one key |
| InlineParser.ParseTtlOption | src/protocol/parser.rs:170-204 | EX and PX options |
| InlineParser.ParseSetBytes | src/protocol/parser.rs:133-167 | SET with or without a TTL option |
| InlineParser.ParseExpireBytes | src/protocol/parser.rs:270-303 | EXPIRE |
| InlineParser.ParseMgetBytes | src/protocol/parser.rs:307-331 | the key loop of MGET |
| InlineParser.ParseMsetBytes | src/protocol/parser.rs:333-367 | the pair loop of MSET |
| InlineParser.TryParseFrameInline | src/protocol/parser.rs:371-383 | one line, its length and its verdict |
| InlineParser.ParseU64Ascii | src/protocol/parser_borrowed.rs:342-354 | digits only, wrapping past 64 bits |
| InlineParser.ParseSetBorrowed | src/protocol/parser_borrowed.rs:144-188 | SET of the fast parser, with bare seconds instead of EX and PX |
| InlineParser.ParseExpireBorrowed | src/protocol/parser_borrowed.rs:255-275 | EXPIRE of the fast parser |
| InlineParser.ParseMgetBorrowed | src/protocol/parser_borrowed.rs:277-303 | MGET of the fast parser |
| InlineParser.ParseBorrowedLine | src/protocol/parser_borrowed.rs:43-115 | verb dispatch of the fast parser |
| InlineParser.ParseInlineBorrowed | src/protocol/parser_borrowed.rs:23-115 | line end search, consumed count and verdict of the fast parser |
| Engine.DashMapEngine.SweepExpired | src/storage/dashmap_engine.rs:31-33 | exactly the live entries stay |
| Engine.DashMapEngine.EvictOneIfNeeded | src/storage/dashmap_engine.rs:37-62 | the sampling loop removes the victim of the specification, and only from a full map |
| Engine.DashMapEngine.Get | src/storage/dashmap_engine.rs:121-137 | the live entry, and lazy removal of an expired one |
| Engine.DashMapEngine.Set | src/storage/dashmap_engine.rs:139-148 | the new map and the outcome under a key limit |
| Engine.DashMapEngine.Del | src/storage/dashmap_engine.rs:150-153 | an expired entry is left in place and reported absent |
| Engine.DashMapEngine.Incr | src/storage/dashmap_engine.rs:155-189 | all four paths: live, not an integer, expired, vacant |
| Engine.DashMapEngine.Len | src/storage/dashmap_engine.rs:191-193 | the number of entries, expired ones included |
| Engine.DashMapEngine.Exists | src/storage/dashmap_engine.rs:195-206 | liveness and lazy removal |
| Engine.DashMapEngine.TtlSecs | src/storage/dashmap_engine.rs:208-228 | remaining seconds with two clock readings |
| Engine.DashMapEngine.Expire | src/storage/dashmap_engine.rs:230-241 | a new deadline for a live entry, lazy removal otherwise |
| Engine.DashMapEngine.Clear | src/storage/dashmap_engine.rs:243-245 | the empty map |
| Engine.DashMapEngine.Keys | src/storage/dashmap_engine.rs:247-254 | the live keys in iteration order |
| Engine.DashMapEngine.Mget | src/storage/dashmap_engine.rs:256-272 | one look-up per key at one instant, no removal |
| Engine.DashMapEngine.DumpEntries | src/storage/dashmap_engine.rs:67-95 | the live entries with their remaining whole milliseconds, and their number |
| Engine.SetExact | src/storage/dashmap_engine.rs:139-148 | within the limit, `set` fails if and only if the key is absent, the map is full and nothing is live; otherwise the key holds the value, the limit holds and at most the victim is gone |
| Engine.EvictExact | src/storage/dashmap_engine.rs:37-62 | what eviction removes, case by case |
| Engine.VictimIsFirstOldest | src/storage/dashmap_engine.rs:42-61 | the victim is the first minimum by creation time, unknown first, among the first five live entries |
| Engine.FirstOldestIs | src/storage/dashmap_engine.rs:45-57 | the running minimum is strictly older than all before it and no younger than any after |
| Engine.IncrExact | src/storage/dashmap_engine.rs:155-189 | `incr` keeps the limit and runs out of memory in the same single situation |
| Engine.LiveKeysAre | src/storage/dashmap_engine.rs:247-254 | exactly the live keys, each once |
| EngineRuns.StepRefines | src/storage/dashmap_engine.rs:120-273 | each operation answers as an abstract map whose entries vanish at their deadline |
| EngineRuns.TtlRefinement | src/storage/dashmap_engine.rs:120-273 | over every run with a monotone clock: equal answers, equal live views, and a size never below the live count |
| EngineRuns.SweepMakesLenExact | src/storage/dashmap_engine.rs:31-33 | right after a sweep the size is the live count |
| EngineRuns.LimitHolds | src/storage/dashmap_engine.rs:139-189 | no sequential run outgrows the limit |
| EngineTasks.CapacityBound | src/storage/dashmap_engine.rs:31-62 | from any state whose claimed keys are within bounds, no interleaving of T tasks makes the map larger than max_keys + T - 1 |
| EngineTasks.CapacityFromStart | src/storage/dashmap_engine.rs:139-189 | the same from idle tasks on any map within the limit |
| EngineTasks.CallKeepsClaims | src/storage/dashmap_engine.rs:139-189 | every call keeps the map plus the keys cleared for insertion within the bound |
| EngineTasks.BoundIsTight | src/storage/dashmap_engine.rs:139-148 | for every limit and number of tasks a run reaches the bound |
| EngineTasks.OnlyWritersChange | src/storage/dashmap_engine.rs:31-33 | a look-up, lazy removal or sweep changes a key only by removing an entry expired at that moment |
| EngineTasks.LiveEntriesSurvive | src/storage/dashmap_engine.rs:121-137 | over every interleaving an unexpired entry that no writer touches stays as it is, and an absent key stays absent |
| EngineTasks.StaleRemovalIsHarmless | src/storage/dashmap_engine.rs:126-129 | a `set` that lands between expiry check and removal survives |
| EngineTasks.IncrementsCount | src/storage/dashmap_engine.rs:155-177 | n increments of a live integer that nothing else writes add n and return the n consecutive next values |
| EngineTasks.ExpiredIncrementIsLost | src/storage/dashmap_engine.rs:158-166 | a run on an expired key where two increments both return 1 |
| EngineTasks.ExpiredIncrementCounts | src/storage/dashmap_engine.rs:158-166 | an increment of an expired key counts if no call between its removal and its insert is meant to change the key |
| EngineTasks.AloneIsEngine | src/storage/dashmap_engine.rs:120-273 | the calls of one task with nobody in between are the engine's operation: any operation, map, limit and iteration order |
| EngineTasks.AloneRuns | src/storage/dashmap_engine.rs:120-273 | those calls are a run of the task's steps, and it ends idle |
| AofCodec.ToAofEntry | src/domain/command.rs:86-144 | the record of every write, with the pair loop of MSET, and none for reads |
| AofCodec.PushPairs | src/domain/command.rs:129-140 | the pair loop of an MSET record |
| AofCodec.TakeField | src/storage/aof.rs:183-211 | a length and the bytes it announces, or where the reader gave up |
| AofCodec.TakeSet | src/storage/aof.rs:262-317 | the body of a SET record, with its TTL |
| AofCodec.TakeExpire | src/storage/aof.rs:380-416 | the body of an EXPIRE record |
| AofCodec.RecordRoundTrip | src/storage/aof.rs:254-487 | reading a record at any offset gives back the command and the offset after it |
| AofCodec.RecordExact | src/domain/command.rs:86-144 | a record says what its command says if and only if the fields fit: key below 2^16, value below 2^32, fewer than 2^16 pairs, TTL absent or whole milliseconds in 1..2^63-1 |
| AofCodec.AppliedIsEncodable | src/storage/aof.rs:183-240 | whatever bytes the reader accepts, the command it applies fits its fields |
| AofCodec.LogRoundTrip | src/storage/aof.rs:244-488 | a whole log reads back as its commands |
| AofCodec.LogExact | src/storage/aof.rs:244-488 | a log reads back as its commands if and only if every one of them fits its fields |
| AofCodec.LogAsRead | src/storage/aof.rs:244-488 | a log whose keys, values and pair counts fit reads back as its commands with their TTLs as the records keep them: whole milliseconds of 64 bits, none if not positive |
| AofCodec.LongKeySpills | src/domain/command.rs:103-109 | a DEL of a key of 2^16 bytes reads as a DEL of the empty key, with the key's bytes left as records |
| AofCodec.ContinuedLog | src/storage/aof.rs:23-27 | a log reopened for appending: the records before a torn one are read first, and records behind a clean end are all read |
| AofCodec.TornTailSwallows | src/storage/aof.rs:23-27 | records acknowledged after a restart that are taken for the bytes of a torn key |
| AofCodec.TornRecord | src/storage/aof.rs:420-477 | a record cut short stops the reader if and only if it is not an MSET cut past its pair count |
| AofCodec.TornTail | src/storage/aof.rs:254-487 | a log cut inside a record yields exactly the whole records before it, with the same exception, where at least one record too many is applied |
| AofCodec.TornMsetFlushes | src/storage/aof.rs:432-476 | a torn MSET whose leftover key bytes are read as FLUSHDB |
| Replay.ReplayAof | src/storage/aof.rs:244-488 | the replay loop, on an engine with or without a limit, leaves the map as the records read leave it and returns their number |
| Replay.ReplayOne | src/storage/aof.rs:254-487 | one record: its engine calls and the next offset, or a stop |
| Replay.ReplayPairs | src/storage/aof.rs:420-477 | the MSET pair loop with its inner breaks |
| Replay.ReplayedUnlimited | src/storage/aof.rs:244-488 | without a limit the replay does not depend on the iteration order |
| Replay.ReplayKeepsLimit | src/storage/aof.rs:244-488 | a replay keeps the limit of its engine, whatever the log holds |
| Replay.CutLog | src/storage/aof.rs:244-488 | every cut of a log is some whole records and a proper part of the next |
| Replay.TornReplay | src/storage/aof.rs:244-488 | for a cut at any byte, engine state and count are those of the whole records, if and only if the cut is not past the pair count of an MSET |
| Snapshot.RewriteAof | src/storage/aof.rs:492-512 | the rewritten log is the log of one SET per live entry, for every map; its records say what they should if keys and values fit their fields |
| Snapshot.DumpSnapshot | src/storage/snapshot.rs:78-120 | header, entries and patched count, then the checksum |
| Snapshot.LoadSnapshot | src/storage/snapshot.rs:125-276 | size, magic, version and checksum tests, then the entries, on an engine with or without a limit; a refused file changes nothing |
| Snapshot.LoadsExactly | src/storage/snapshot.rs:125-181 | a file loads if and only if it has at least 22 bytes, starts with ZDB1 and version 1, and its last four bytes are the checksum of the rest |
| Snapshot.BadChecksum | src/storage/snapshot.rs:171-181 | any payload with another trailer is refused |
| Snapshot.DamagedDump | src/storage/snapshot.rs:171-181 | a dump whose payload was replaced by one with another checksum is refused |
| Snapshot.ShortFile | src/storage/snapshot.rs:125-181 | a file cut below 22 bytes is refused |
| Snapshot.CountedEntries | src/storage/snapshot.rs:189-275 | of the entries behind a header, as many are read as the count says, or all of them |
| Snapshot.LoadLoop | src/storage/snapshot.rs:189-275 | the entry loop, stopping at the first short field and counting the entries the engine took |
| Snapshot.LoadedUnlimited | src/storage/snapshot.rs:189-275 | without a limit every entry is taken, as a replay of its SET would |
| Snapshot.SnapshotRoundTrip | src/storage/snapshot.rs:78-276 | a dumped file loads exactly its entries, for every checksum function |
| Snapshot.DumpReloads | src/storage/dashmap_engine.rs:67-95 | loading a dump gives exactly the keys live when it was taken, same bytes, deadlines as below |
| Snapshot.ReloadedDeadline | src/storage/dashmap_engine.rs:81-91 | no TTL stays none, remaining time is floored to milliseconds, less than one millisecond becomes permanent |
| Snapshot.DumpsRestore | src/storage/aof.rs:492-512 | rewritten log and snapshot both restore the live entries, each counted once |
| Recovery.StartUp | src/main.rs:30-43 | snapshot if it loads, then the whole log |
| Recovery.RefusedSnapshot | src/main.rs:30-43 | after a refused snapshot start-up gives what the log alone gives |
| Recovery.DamagedSnapshotIgnored | src/main.rs:30-43 | so a snapshot whose trailer is not its checksum changes nothing |
| Recovery.RecoveryIsExact | src/main.rs:30-43 | for every plain log and every cut, the snapshot at the cut followed by the uncut log restores exactly the live content |
| Recovery.ReplayedPlain | src/storage/aof.rs:244-488 | a plain log decides each key by its last touch, at whatever times it is applied |
| Recovery.RecoveryWithIncr | src/main.rs:30-43 | for every log of TTL-free commands, INCR included, every cut and every key: start-up from the snapshot file and the log bytes restores the live value if and only if the log sets or drops the key somewhere, or no INCR of it precedes the cut |
| Recovery.RestoredCount | src/main.rs:37-43 | the same at the level of values |
| RecoveryFile.RecoveryFromFile | src/main.rs:30-43 | for every TTL-free log, cut, way of batching and key: start-up from the snapshot file and the writer's file restores the live value if and only if the INCRs counted before the cut, when the log never sets or drops the key, and its batch-filling INCRs since it was last set or dropped are together zero modulo 2^64 |
| RecoveryFile.LogLeads | src/storage/aof.rs:40-71 | how far a log with doubled records puts the restored counter ahead of the live one |
| Recovery.RecoveryFromAnyDump | src/storage/snapshot.rs:78-120 | a snapshot taken while sessions write, holding any values: if the log sets or drops each of its keys, start-up restores exactly the live content |
| Recovery.ReplayedLasting | src/storage/aof.rs:244-488 | a TTL-free log acts on the value of each key alone, at whatever times it is applied |
| Recovery.IncrementsCountTwice | src/main.rs:30-43 | with a snapshot file taken after j of n increments, start-up gives j + n |
| AofWriter.AofWriter.AppendRaw | src/storage/aof.rs:40-55 | the entry joins the batch; the one that fills it is written twice |
| AofWriter.AofWriter.FlushBatch | src/storage/aof.rs:57-87 | the batch and then the entry once more |
| AofWriter.AofWriter.Flush | src/storage/aof.rs:90-102 | the batch moves to the file |
| AofWriter.AofWriter.FlushIfNeeded | src/storage/aof.rs:105-126 | only under every-second and only after a second |
| AofWriter.AofWriter.FinalizeRewrite | src/storage/aof.rs:139-155 | pending entries go to the old file, which is then replaced |
| AofWriter.WriteAll | src/storage/aof.rs:40-102 | the file of any use of one writer is the log of the appended commands with each batch-filling one doubled |
| AofWriter.WrittenIsSpread | src/storage/aof.rs:40-71 | what is written is what was appended, with exactly the batch-filling commands doubled |
| AofWriter.DoubledEntryHarmless | src/storage/aof.rs:70-71 | applying a record twice at one instant shows if and only if it is an INCR that adds one |
| AofWriter.DuplicateTolerance | src/storage/aof.rs:40-102 | replaying the doubled file gives the live view of replaying each entry once, if no doubled entry is an INCR |
| WriterTasks.LockedRun | src/storage/aof.rs:40-155 | no lock is held twice in any reachable state |
| WriterTasks.DeadlockIsCrossedLocks | src/storage/aof.rs:105-122 | a state is deadlocked if and only if some task holds `batch` and some task holds `file` |
| WriterTasks.NoDeadlock | src/storage/aof.rs:40-155 | under `always` and `no`, no reachable state is deadlocked |
| WriterTasks.EverysecDeadlocks | src/storage/aof.rs:105-122 | under `everysec`, one append and one tick deadlock |
| WriterTasks.DeadlockIsForever | src/storage/aof.rs:40-126 | a deadlocked writer stays so, and its file and batch never change again |
| WriterTasks.LogInvNext | src/storage/aof.rs:40-126 | every step of every task keeps the log invariant |
| WriterTasks.AppendsAreKept | src/storage/aof.rs:40-126 | in every interleaving the appends in batch-lock order are a subsequence of file and batch, and every extra item is the one second copy of an append that found the batch full, behind its first |
| WriterTasks.UnwrittenIsSmall | src/storage/aof.rs:40-55 | a batch of 4096 bytes or more has an appender before its flush; with none, less is unwritten and every owed copy is in the file |
| WriterTasks.CopyOvertakes | src/storage/aof.rs:57-71 | two appenders whose second copies land in the wrong order |
| WriterTasks.AloneAppend | src/storage/aof.rs:40-88 | an append with nobody in between is one `append_raw`: its file and batch, and the locks it takes, in order |
| WriterTasks.AloneOthers | src/storage/aof.rs:90-165 | the same for `flush`, `finalize_rewrite` and `flush_if_needed`, whose lock order is the reverse |
| WriterTasks.AloneRuns | src/storage/aof.rs:40-165 | among idle tasks no lock is refused: an operation runs to its end |
| WriterRecovery.CopiesHarmless | src/storage/aof.rs:57-71 | a second copy that overtakes no later write to the key changes nothing |
| WriterRecovery.FileRecoversOrder | src/storage/aof.rs:40-126 | in every interleaving, replaying the file gives a key its batch-lock-order value unless a second copy overtook |
| WriterRecovery.TurnsOvertakeNothing | src/storage/aof.rs:40-71 | if no append to a key starts while another one is under way, no second copy overtakes a later append to it |
| WriterRecovery.TurnsRecover | src/storage/aof.rs:40-126 | in every such interleaving, whatever happens to other keys, the file restores the key at its batch-lock-order value |
| WriterRecovery.StaleWriteRecovered | src/storage/aof.rs:57-71 | a run where both clients are answered and replay restores the older value |
| LiveRewrite.AgreesNext | src/storage/aof.rs:139-155 | every step keeps log and live value in agreement for a key apart from the rewrite |
| LiveRewrite.RewriteKeepsKey | src/storage/aof.rs:515-551 | at every point of every run, a key whose commands do not overlap a rewrite is restored at its live value from file and batch |
| LiveRewrite.OverlappingSetIsLost | src/storage/aof.rs:139-155 | a SET dispatched and logged between the dump's visit and the rename is gone |
| Response.WriteTo | src/protocol/response.rs:38-111 | the bytes of a response in either mode |
| Response.WriteArray | src/protocol/response.rs:90-110 | the item loop |
| Response.ReplyDecodes | src/protocol/response.rs:38-111 | a RESP-mode response decodes to itself, whatever follows, if and only if it is not an error with a CR in its text |
| Response.RepliesDecode | src/protocol/response.rs:38-111 | any list of such responses decodes back to that list |
| InlineReplies.InlineReplyDecodes | src/protocol/response.rs:38-111 | an inline reply decodes to what was sent if and only if it is one of the two fixed error texts, or a value without CR other than PONG and OK, or decodes over RESP |
| Dispatcher.Dispatch | src/application/dispatcher.rs:191-285 | engine change and response of every command |
| Dispatcher.DispatchToBuffer | src/application/dispatcher.rs:11-189 | the same engine change, and the buffer grows by the answer's bytes |
| Dispatcher.SetPairs | src/application/dispatcher.rs:275-283 | the MSET loop stops at the first failing pair and keeps the earlier ones |
| Dispatcher.BuffersAgree | src/application/dispatcher.rs:11-189 | the two dispatchers write the same bytes if and only if the answer is not the error of a SET or INCR, and then both start alike |
| Dispatcher.DispatchDecodes | src/application/dispatcher.rs:191-285 | a client decodes the answer if and only if the command is not an INCR of a live non-integer under a key with a CR |
| Dispatcher.GarbledReply | src/application/dispatcher.rs:214-217 | INCR of a non-integer under the key CR: the client does not read the error that was sent |
| Dispatcher.WriteIsReplay | src/storage/aof.rs:254-487 | dispatching a write and replaying its record do the same to the map, and a failed write does nothing |
| Dispatcher.LogIsFaithful | src/server/session.rs:222-262 | over every run of all commands, a replay of what was logged, if it happened at the original times, gives the engine's live view |
| Dispatcher.LoggedBytesRestore | src/server/session.rs:222-262 | the same down to the bytes of the log |
| Restart.RestartKeeps | src/storage/aof.rs:244-488 | over every run of all commands, every way of batching and every start-up clock, a key with a safe ledger is restored at its live value from the writer's file |
| Restart.RestartExact | src/main.rs:37-43 | start-up from the writer's file shows the live value of a key at every start-up time and ever after, if and only if its ledger is safe: since the last reset no deadline that the record keeps, no run-out TTL that the record drops unless counted anew, and the restored counter, ahead by one per batch-filling INCR and by what a run-out TTL left, ahead by zero modulo 2^64 |
| Restart.Follows | src/storage/aof.rs:244-488 | after every run, for every file and every start-up clock, live and restored entry of each key are as its ledger says |
| Restart.FileReads | src/storage/aof.rs:40-71 | start-up reads the logged writes as their bytes say, the batch-filling ones twice |
| Ledgers.NoteAgrees | src/storage/aof.rs:254-487 | every logged write, single or double, keeps live and restored entry as the ledger says |
| Ledgers.SafeShows | src/storage/dashmap_engine.rs:121-137 | the restored entry shows what the live one shows if and only if the ledger is safe |
| Ledgers.DriftIsDoubles | src/storage/aof.rs:57-71 | while a key is counted, the restored counter gains exactly the INCRs that filled a batch |
| Ledgers.InstantRun | src/storage/aof.rs:313-317 | what a replay at one instant makes of any list of records: absent, permanent, or with a deadline still ahead |
| RestartExamples.DoubledIncrementRestored | src/storage/aof.rs:57-71 | an INCR that fills the batch: 1 live, 2 after a restart at any time |
| Restart.PlainlySafe | src/storage/aof.rs:40-71 | a key that no SET with a TTL and no EXPIRE touches, and none of whose INCRs filled a batch, has a safe ledger |
| RestartExamples.ExpiredKeyReturns | src/storage/aof.rs:313-317 | an expired key is seen again right after a restart, however its record was batched |
| RestartExamples.ExpiredCounterDiffers | src/storage/aof.rs:313-317 | SET 5 with a TTL, expiry, INCR: 1 live, 6 or 7 after a restart |
| RestartExamples.ZeroTtlReturns | src/storage/aof.rs:313-317 | a SET with a TTL of zero: never live, and permanent after every restart |
| ClientView.ReplyMeans | src/application/dispatcher.rs:191-285 | every reply of an unlimited server states a fact about the live entries alone: presence, value, remaining whole seconds, the keys each once, one more than the integer |
| ClientView.ReplyMeansWithin | src/application/dispatcher.rs:191-285 | the same on a server with a key limit, where a SET, INCR or MSET is answered with the out-of-memory error exactly when the limit refuses it (or, an MSET, one of its pairs) |
| ClientView.MsetRefused | src/application/dispatcher.rs:191-285 | an MSET is answered with an error exactly when one of its pairs is refused |
| ClientView.ChangeMeans | src/storage/dashmap_engine.rs:120-273 | every command changes the live entries as a function of the live entries |
| ClientView.SizeMeans | src/storage/dashmap_engine.rs:191-193 | DBSIZE is at least the live count, and equal if and only if nothing expired is left in the map |
| ClientView.StoredMeans | src/storage/dashmap_engine.rs:120-273 | the keys held after each command, expired ones included: look-ups and EXPIRE drop the expired entry they meet, DEL and the listing commands leave it |
| ClientView.Indistinguishable | src/storage/dashmap_engine.rs:120-273 | two maps with the same live entries keep the same live entries over every run of commands |
| Metrics.Metrics.RecordCommand | src/observability/metrics.rs:76-90 | local and shared counters after one command, batch crossing included |
| Metrics.Metrics.CommandCount | src/observability/metrics.rs:92-99 | the shared count plus the calling thread's own |
| Metrics.Metrics.TotalCommands | src/observability/metrics.rs:101-107 | the same for the total |
| Metrics.Metrics.FlushAll | src/observability/metrics.rs:163-189 | the total and then each type move to the shared counters |
| Metrics.InvNext | src/observability/metrics.rs:76-90 | every step of every thread keeps each column balanced and local totals small |
| Metrics.CountsConserved | src/observability/metrics.rs:76-90 | in every interleaving shared plus local counts equal the recorded number modulo 2^64, for each type and the total; local totals are at most 63 between calls |
| Metrics.FlushedIsExact | src/observability/metrics.rs:163-189 | with nothing local left the shared count is the recorded number modulo 2^64 |
| Metrics.CommandCountIs | src/observability/metrics.rs:92-99 | `command_count` is right if and only if the other threads' local counts cancel out |
| Metrics.CommandCountMisses | src/observability/metrics.rs:92-99 | one thread has counted a command and another is told zero |
| Metrics.BatchBorrows | src/observability/metrics.rs:83-88 | a local per-type count wraps below zero if and only if the batch held another type |
| Metrics.RecordConserves | src/observability/metrics.rs:76-90 | one call adds one to its type and the total and nothing else |
| Metrics.SoloRecord | src/observability/metrics.rs:76-90 | with no other thread in between, the steps of a recording are one `record_command` |
| Metrics.SoloFlush | src/observability/metrics.rs:163-189 | with no other thread in between, the steps of a flush are one `flush_all` |
| Metrics.FlushEmpties | src/observability/metrics.rs:163-189 | a flush empties every local column into the shared one |

## Left out

- Sockets, timeouts, the accept and drain loops, signals and task spawning: reads are an arbitrary list of chunks, an empty chunk is a closed connection.
- The file system, fsync, failed writes, rename errors and mmap: files are byte sequences and every write succeeds. What a crash leaves is the torn tail of a log.
- CRC32: an arbitrary function of the payload.
- UTF-8: keys are byte strings taken to be valid, so lossy conversion never changes one.
- DashMap internals: shards, guards and a non-atomic `len` are not modelled; each call is one atomic step. The entry guard that `incr` holds on a vacant key while it calls `len` is not modelled either.
- Engine.DashMapEngine.Expire: does not model the panic when a deadline exceeds the range of `Instant`, because instants are unbounded here.
- Replay.ReplayAof: each record takes one clock reading.
- WriterRecovery.FileRecoversOrder: one direction only, in terms of the file; a second copy that overtakes can be repaired by a later copy, so the converse fails. The condition on the schedule is in `WriterRecovery.TurnsRecover`, whose converse fails for the same reason.
- LiveRewrite.RewriteKeepsKey: one session, as the log appends of several sessions can already overtake each other without a rewrite; the lock waits of the writer are left to `WriterTasks`.
- Dispatcher.LogIsFaithful: speaks of a replay at the original times, which start-up does not do; what start-up does at its own times is in `Restart.RestartExact`. Each command reads the clock once.
- Dispatcher.LoggedBytesRestore: speaks of a replay at the original times, as above, and of a log that holds each record once.
- AofWriter.DuplicateTolerance: a sufficient condition, at a fixed clock and for the whole live view; the exact one per key, for every start-up clock, is in `Restart.RestartExact`.
- Recovery.RecoveryWithIncr: the log holds each record once; the writer's file with its doubled records is in `RecoveryFile.RecoveryFromFile`.
- Metrics.Metrics.FlushAll: hits, misses and errors are left out; they repeat the argument of the total.
- `ParsedCommand` is represented by the command that its `to_owned` gives, and `parse_mset_borrowed` by the pair loop it shares with `parse_mset_bytes`.
- MixedStream.UnderstoodExactly: the strings of a bad frame are lines without CR or LF whose first word is no command; a string that is itself a command line is run when its frame is dropped, one line at a time as `Session.LineAmongArrays` says.
- The message texts inside parse errors: only the kind of error is kept.
- The inline branch of the benchmark session and its dispatcher (`handle_session_fast`, `dispatcher_fast.rs`), `dispatcher_borrowed.rs`, the text serialiser `serialize`, INFO text, logging, configuration and CPU affinity: they would only add easy members.
