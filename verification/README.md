# mysql-glb in Dafny

A model of the sequential core of mysql-glb, a tool that replays a MySQL general query log
against a server. The model has three parts:

- **The log reader.** `mygl.Reader.ReadEntry` is a find/consume state machine. It skips lines until one
  starts with a header, takes the time, connection id and command from that header, then
  appends continuation lines until a 64-byte lookahead window starts with a header or is empty.
  Finally it drops one trailing byte.
- **The dispatcher.** The read loop in `main` groups entries by connection id. A `Quit` sends that
  connection's whole buffer to the workers as one batch.
- **The worker.** It replays one batch against a backend and updates six shared counters
  (`stats.go`). It is helped by the read-only statement filter and the data source name builder.

Everything is pure functions over immutable data. The input stream is the bytes still unread,
each `char` standing for one byte, plus how the stream ends: cleanly, or with a read error that
repeats on every later read. `time.Parse` is a parameter, `parse: seq<char> -> Option<Timestamp>`.
The database is an oracle, `ok: nat -> bool`, which answers for the batch's i-th entry: for
`Connect`, whether open-and-ping succeeds; for `Query`, whether the execution succeeds. The
worker's backend calls (`Open`, `Exec`, `Close`) are recorded in order.

Modules:
- `Common`: `Option`, `Flatten`, subsequences.
- `Commands`: the command vocabulary.
- `Header`: the header pattern and the id conversion.
- `Reader`: `ReadEntry`.
- `Drain`: the read loop, and reading back a well-formed log.
- `Dispatch`: batching.
- `Stats`: the counters.
- `Dsn`: data source names.
- `Filter`: the read-only filter.
- `Worker`: one batch.

Behaviour kept exactly as the code has it:
- **Header grammar.** Go's `\s` is `[\t\n\f\r ]`, so the white space before the id may include a
  newline, and `[^\t]+` may span lines too.
- **Time placeholder.** It is a tab standing in for the time column, followed by the separating
  tab, so a placeholder header starts with two tabs: `\t\t15 Quit\t`. A line `\t15 Quit\t` with a
  single tab is not a header.
- **Command names.** A header accepts any non-empty tab-free command name, not only the 31
  known ones. The dispatcher and worker compare the captured text with `Quit`, `Connect` and
  `Query`. The vocabulary (`Commands`) classifies names, and `Reader.IsParses` shows that such a
  comparison agrees with the classification.
- **Read-only filter.** The filter accepts leading white space, newlines included, before
  `select`, as `^\s*` does, and the keyword in any letter case.
- **Space guard.** The guard `matches[1][0] != ' '` cannot fail, because the column starts with a
  digit or a tab. `parse` is therefore also applied to the tab placeholder. Only a successful
  parse replaces the inherited time.
- **Ids.** An id that `strconv.Atoi` cannot convert, because it overflows `int`, stays 0.
- **Final line without a newline.** It loses its last real byte.
- **Bare header at the end.** When the first header line is the input's last line and ends right
  after its closing tab, `arg.Truncate(-1)` panics. This is the `Panicked` outcome of `ReadEntry`.
- **Lookahead across lines.** The lookahead window can span several lines. A continuation line
  `\t\t` followed by a line such as `15 x\ty` looks like a header to the lookahead, although
  neither line is one on its own: the entry ends early and the find state then drops both lines.
  `Drain.WellFormedLog` names the logs where this does not happen.
- **Second `Connect`.** A second `Connect` in one batch replaces the handle without closing it. The
  open-connections gauge then stays one too high (`Worker.SecondConnectLeaks`).
- **Missing counters.** `Stats.Get` of a counter without a cell is 0.

## Model

| member | source | states |
|---|---|---|
| Header.MatchHeaderIff | mygl/reader.go:13-14 | The scanner returns parts `m` exactly when the text starts with the prefix those parts spell and they have the pattern's shape: a time column or tab placeholder, a tab, white space, digits, a space, a non-empty tab-free command, a tab. So the match is unique. |
| Header.MatchDependsOnPrefix | mygl/reader.go:146 | Any text sharing a header's matched prefix matches the same way, so a 64-byte window sees a header whose prefix fits in it. |
| Header.ParseId | mygl/reader.go:133-135 | The id is the digit group's value when it fits in `int`. Otherwise it is 0, the value the entry started with. It is always in 0..MaxInt. |
| Header.ParseIdDecimal | mygl/reader.go:133-135 | Converting the decimal rendering of any id in range gives that id back. |
| Commands.Parse | mygl/reader.go:16-48 | Classifying a name gives `Other` exactly when no vocabulary command has that name, and the result's name is the text classified. |
| Commands.ParseName | mygl/reader.go:16-48 | Classifying a command's name gives the command back. |
| Commands.NamesDistinct | mygl/reader.go:16-48 | The 31 command names are pairwise distinct. |
| Reader.ReadLine | mygl/reader.go:119 | `ReadString('\n')`: the text read followed by the rest is the input. The text is one complete line, or the whole remainder when no newline is left. |
| Reader.Peek | mygl/reader.go:142-145 | `Peek(64)` gives the first min(64, n) bytes. It fails exactly when fewer than 64 bytes remain and the stream ends in an error. |
| Reader.ResolveTime | mygl/reader.go:126-131 | The entry's time is the parsed column when parsing succeeds, and the inherited last time when it fails. |
| Reader.Lines | mygl/reader.go:119 | Successive line reads partition the input: their concatenation is the input. Every line ends with its only newline, except that the last may instead be non-empty with no newline at all. |
| Reader.FirstHeader | mygl/reader.go:118-140 | The index of the first header line: no line before it is a header. |
| Reader.ReadEntry | mygl/reader.go:105-160 | The outcomes of one read. An entry: the lines before the first header are skipped, and the fields come from that header with the time inherited unless it parses. The argument runs from the header's remainder to the first stop, minus one byte. The first stop is the first line start after the header line whose 64-byte window is empty or a header. The reader is left at that stop, with the last time set. End-of-file: exactly when the stream ends cleanly and no header line is left. A read error: exactly when the stream fails and either no header line is left or fewer than 64 bytes follow the first stop, where some `Peek(64)` or line read meets the error. After an entry, at least 64 bytes are left unless the stream ends cleanly. The panic: only when the first header line is the last line and is a bare header prefix. |
| Reader.FindSpec | mygl/reader.go:117-140 | The find state, stated over the input's lines and its first header line (`FindOutcome`): the outcomes of `ReadEntry`. An entry ends at the first stop. The read fails exactly on a failing stream with no header line, or with fewer than 64 bytes after the first stop. |
| Reader.ConsumeSpec | mygl/reader.go:141-158 | The consume state never reports end-of-file. It fails exactly when the stream fails and fewer than 64 bytes follow the first stop (`EntryRest`): either the `Peek(64)` there fails, or an earlier one or a line read meets the error first. It panics only with an empty argument, and always with an empty argument at the end of a clean stream. Otherwise it stops at the first stop after the argument so far. The argument is all text up to there minus one byte, and the input is left at the stop, with the bytes after it unread. |
| Reader.ConsumeOutcomes | mygl/reader.go:141-158 | The consume state's non-entry outcomes, as in `ConsumeSpec`. It fails exactly on a failing stream with fewer than 64 bytes after the first stop. |
| Reader.EntryRest | mygl/reader.go:141-157 | The bytes the consume state leaves unread: those after the first stop, so at most the input. |
| Reader.IsParses | main.go:95-109 | Comparing an entry's command text with a command's constant, as the worker's `switch` does, gives the same answer as classifying the text. |
| Reader.ConsumeReads | mygl/reader.go:141-158 | The consume state's entry: the text consumed minus one byte, stopping in front of a header window or the end. |
| Reader.ConsumeStopsAt | mygl/reader.go:141-157 | The consume state leaves the input exactly at the first stop after the argument so far. |
| Reader.EntryEnd | mygl/reader.go:141-157 | The stop position is the first stop: a line start whose window is empty or a header, with no earlier line start from the argument's end on being one. |
| Reader.StopOffsetFirst | mygl/reader.go:141-157 | Scanning line by line for the first position whose window passes a test finds the first such line start. |
| Reader.FirstStopUnique | mygl/reader.go:141-157 | There is only one first stop, so it fixes the entry's argument and the reader's position. |
| Drain.ReadShrinks | mygl/reader.go:105-160 | A successful read consumes at least one byte. |
| Drain.ReadAll | main.go:147-155 | The read loop stops on the first outcome that is not an entry, after at most as many entries as input bytes. |
| Drain.ReadAllWellFormed | mygl/reader.go:133-136 | Every entry the loop reads has a non-empty tab-free command and an id in range. |
| Drain.ReadAllStops | main.go:149-155 | The loop ends with a read error exactly on a failing stream, and with end-of-file only on a clean one. A clean input without header lines gives no entries and end-of-file. |
| Drain.WellFormedReadsBack | mygl/reader_test.go:16-39 | A well-formed log gives one entry per record, in file order, and then end-of-file. A well-formed log has header lines whose prefix fits the window, and continuation lines not mistaken for headers. Each entry has the header's fields, the time inherited from the previous entry unless it parses, and as argument the header's remainder and continuation lines, verbatim, without the final newline. |
| Drain.ReadRecord | mygl/reader.go:117-158 | One record in front of a header or the end reads as its entry and leaves exactly the following text. |
| Drain.ConsumeBody | mygl/reader.go:150-156 | Continuation lines are appended verbatim, with their newlines, until the following text. |
| Drain.FindHeaderLine | mygl/reader.go:123-137 | A complete header line starts the entry: time, id and command from the header, argument from the text after the matched prefix. |
| Drain.NextRecordStops | mygl/reader.go:146 | The text of a well-formed log stops the consume state: it is empty, or its window starts with a header. |
| Drain.UnterminatedLastLine | mygl/reader.go:146-149 | A final header line without a newline loses its last byte. With nothing after the prefix, reading panics. |
| Drain.ConsumeAtEnd | mygl/reader.go:146-149 | At the end of a clean input the entry is finished with one byte dropped, or the read panics when the argument is empty. |
| Drain.BareHeaderAtEndPanics | mygl/reader.go:148 | When the first header line is the input's last line and a bare header prefix, ending right after its closing tab, the read panics after skipping the lines before it. |
| Dispatch.StepValid | main.go:156-160 | One step keeps the invariant. Queued batches are one connection's entries ending in their only `Quit`. Buffers are non-empty, hold only their own connection's entries, and contain no `Quit`. |
| Dispatch.RunValid | main.go:147-162 | The invariant holds after any sequence of entries. |
| Dispatch.Conservation | main.go:147-162 | A connection's entries, in reading order, are its queued batches in queue order followed by its buffer. Nothing is lost, duplicated or reordered. |
| Dispatch.StepConserves | main.go:156-160 | One entry is appended to its own connection's share, and no other connection's share changes. |
| Dispatch.QueueFollowsQuits | main.go:157-160 | There is one batch per `Quit`, queued in the order the `Quit` entries were read, each ending with its `Quit`. |
| Dispatch.QueueAppendOnly | main.go:157-158 | Reading more entries never changes or withdraws a batch already queued. |
| Dispatch.Leftover | main.go:147-162 | A connection keeps a buffer at the end exactly when it has entries and its last one is not `Quit`. |
| Dispatch.StepPending | main.go:156-160 | After one step a connection has a buffer exactly when it had one before (another connection's entry) or the entry is its own and not a `Quit`. |
| Dispatch.SentEndsInQuit | main.go:157-160 | What a connection has had sent is a prefix of its entries that ends with a `Quit`. |
| Dispatch.NeverQuitNeverSent | main.go:147-162 | A connection that never quits never has an entry sent to a worker. |
| Stats.NewStats | stats.go:16-22 | Exactly the six counter ids 0..5 have cells, all zero. |
| Stats.Add | stats.go:39-41 | The named counter moves by `delta`, every other counter is unchanged, and the set of cells stays the same. |
| Stats.Inc | stats.go:31-33 | The named counter goes up by one and nothing else changes. |
| Stats.Dec | stats.go:35-37 | The named counter goes down by one and nothing else changes. |
| Stats.IncDecRestores | stats.go:31-37 | A decrement after an increment of the same counter restores the counters. |
| Stats.AddCommutes | stats.go:39-41 | Two updates give the same counters in either order. |
| Dsn.BaseDsn | main.go:61-74 | The base name: `user[:pass]@` only with a user, the password part only when it is non-empty, then the address, then `/`. |
| Dsn.ParseBaseDsn | main.go:61-74 | The user, password and address can be read back from the base name when the user has no `:` or `@` and the address no `@`. A password without a user is dropped. |
| Dsn.LastToken | main.go:97-98 | The database name is the space-free tail of the argument after its last space, or the whole argument. |
| Dsn.LastTokenUnique | main.go:97-98 | Any space-free tail that follows a space, or is the whole argument, is that name. |
| Dsn.ConnectTarget | main.go:97-98 | An argument of the form `... on db` names `db`. |
| Dsn.SessionDsn | main.go:100 | The opened name is the base name followed by the database name. |
| Filter.IsReadOnlyIff | main.go:24 | The filter accepts exactly the statements with an all-white-space prefix followed by `select` in any letter case. |
| Filter.FilterExamples | main.go:24 | Upper and mixed case and leading blank lines are accepted. Other statements and a truncated keyword are not. |
| Worker.ApplyCounts | main.go:95-119 | Per entry: a `Query` adds one to the query count. A `Connect` adds one to the connection count, and then one to the open gauge or to the failed count, by the backend's answer. The handle is then held exactly when it succeeded. Other commands change nothing. |
| Worker.ApplyQueries | main.go:109-118 | Per entry: an attempted query is either executed or skipped. The failed count rises exactly when a query is executed and the backend rejects it. |
| Worker.StepExecs | main.go:111-113 | An entry executes its argument exactly when it is an allowed `Query` and a handle is held. |
| Worker.ProcessCounts | main.go:93-119 | Over the entries: the query count rises by the number of `Query` entries, and the connection count by the number of `Connect` entries. The open gauge rises by the successful connects, and each connect opens or fails. The handle held at the end is decided by the last `Connect`. |
| Worker.ProcessQueries | main.go:109-118 | Over the entries: attempted queries are executed plus skipped. The failures are exactly the executed queries the backend rejects (`FailedQueries`). |
| Worker.FailedQueries | main.go:111-115 | The executed queries that fail are at most the executed queries. |
| Worker.ProcessExecs | main.go:109-118 | The statements executed are exactly the reference selection `Executed`: the allowed `Query` arguments met while a handle is held. |
| Worker.ProcessOpens | main.go:96-100 | Over the entries, the names opened are exactly the reference list `Targets`: one per `Connect` entry, in order, whatever the backend answers. |
| Worker.ProcessNoClose | main.go:93-119 | No handle is closed while the entries run. |
| Worker.ProcessFrame | main.go:93-119 | Counters outside the six are untouched. |
| Worker.ExecutedFromQueries | main.go:111-112 | The executed statements are `Query` arguments in their order, each allowed by the filter. |
| Worker.BatchCounts | main.go:93-124 | Over a batch: each attempted query is executed or skipped, and each attempted connect opens or fails. The failed queries are exactly the executed ones the backend rejects. The open gauge ends at the successful connects minus the final close: never negative, and balanced when the batch has at most one `Connect`. |
| Worker.HeldMeansOpened | main.go:96-108 | A handle held at the end needs a successful connect. With at most one `Connect`, a successful one is still held. |
| Worker.SecondConnectLeaks | main.go:96-124 | Two successful connects in a batch open twice and close once, so the gauge stays at 1. |
| Worker.BatchExecs | main.go:109-118 | The executed statements are a subsequence of the batch's queries. With the filter on, they are all read-only. |
| Worker.BatchOpens | main.go:96-100 | A batch opens, in order, the base name followed by the last word of each `Connect` entry's argument, one per `Connect`, and nothing else. |
| Worker.BatchCloses | main.go:121-124 | A batch closes its handle last exactly when one is held at the end, and never otherwise. |
| Worker.ProcessTranslates | main.go:93-119 | The entries' effect on each counter, the calls and the handle do not depend on the counters' starting values. |
| Worker.ApplyTranslates | main.go:95-119 | One entry's effect on each counter, calls and handle does not depend on the counters' starting values. |
| Worker.BatchTranslates | main.go:93-124 | A batch's effect on each counter and its calls do not depend on the counters' starting values. |
| Worker.BatchesCommute | main.go:93-124 | Two batches run by workers in either order leave the same counters. |

## Left out

- Goroutines, the `connQueue` channel and the `sync.WaitGroup`: batches are a plain sequence, and concurrent workers appear only as `Worker.BatchesCommute`.
- Signal handling, the progress loop, `finalOutput` (floating-point rates) and flag parsing: they are output and process control.
- `log.Fatalf` on a read error: `Drain.ReadAll` returns the error outcome, and nothing after it is modelled.
- `database/sql` and the MySQL driver: replaced by the `ok` oracle. `sql.Open` and `Ping` are one answer; the `Close` call is recorded but has no outcome.
- `time.Parse` with the `060102 15:04:05` layout: calendar semantics are not modelled, and `parse` is any partial function.
- `Entry.String`: formatting only.
- `bufio` internals: only "peek up to 64 bytes without consuming" and "read through the next newline" are modelled. The stream's error is taken to repeat once reached.
- intlocker.go: a per-key mutex utility that the replay does not use.
- Stats.Add: counters are unbounded integers; the source's `int32` wrap-around and atomicity are not modelled.
- Filter.IsReadOnly: only ASCII letters are case-folded. Go's `(?i)` also matches the two-byte long s `ſ` (U+017F) for `s`, which the model does not accept.
- Reader.ResolveTime: the timestamp is opaque, so nothing is said about the order of times.
- Stats.Get: it has no contract of its own; its value on a missing counter, 0, is its definition.
