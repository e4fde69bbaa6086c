# mcserverd, modelled and proved in Dafny

mcserverd is a daemon that runs a Minecraft server and lets one SSH session at a time drive it. This project models the
parts of it that carry state and proves what they promise, over all inputs, all runs and all interleavings:

- **The INI store.** A circular doubly linked list on the heap refines a sequence. On two levels of such rings the
  parser, the printer, lookup, update and removal refine a pure description of the file dialect; the parser works on
  a line buffer, moves pointers through it and writes terminators. Proved on top of it: documents survive printing and
  parsing if and only if they are well formed, parsing yields only such documents, every lookup is the last assignment
  in the text, and updates change nothing else. The line reader with its doubling buffer is proved to return the lines
  of the file if and only if they fit.
- **The configuration cache.** Nine fields mirror nine keys. Over any run of setters the fields are what a fresh start
  on the written file would compute, if and only if the name and the password may stand in a file.
- **Log rotation.** Numbered files, probing, shifting down, restarts. Only whole oldest files are ever dropped, and the
  bytes kept are bounded from both sides, over any mixture of records and restarts.
- **Sessions.** Accepting, input, exits, the gc thread and the refresh of the shell as steps of a state machine, and the
  code on the heap ring as refinements of those steps. Who the input of a shell comes from, and exactly when a shell
  has one owner and the queue is served.
- **Command lines.** Both splitters count in one pass and fill in another. The exact conditions under which the passes
  agree, and what the arguments are then.
- **The game supervisor.** Start, stop, the wait thread and the child process in every interleaving: safety, and
  exactly when stopping blocks for ever.

Module by module: `Options`, `Seqs`, `Text` and `CStrings` are groundwork. `Rings` is list.c and queue.h. `IniFormat`
describes the dialect on values, `IniDialect` tells it by characters, `IniRoundTrip` and `IniLookup` prove its laws, `LineCutting`, `IniStore`, `LineFile` and
`IniOpen` are the code of ini.c on the heap, `LineReader` is the meaning of its line reader. `Decimal`, `Config` and
`ConfigRuns` are config.c; `LogRotation` is log.c; `SessionProtocol`, `SessionRuns`, `SessionInput` and `SessionServer` are
network.c;
`CommandWords` and `CommandLine` are the splitter of cmdline.c; `ExecWords` and `Supervisor` are game-server.c.
`dafny verify dfyconfig.toml` checks everything.

## Where the code departs from what it says, or from what one would expect

The model follows the code in all of these.

- The comment on `ini_get_key_value` (src/config/ini.h:59-61) says that a missing key is created. The code creates
  nothing and returns 0.
- `list_insert_before` on the head node does not move the head, so the new item becomes the last one.
- A key may have at most one blank before its `=`: the blank is overwritten before the second skip starts. What follows
  the `]` of a header is dropped.
- A line that does not fit the buffer is merged with the next one, unless its newline starts a chunk or it is the last
  line (`ReadsOneLineIff`, `LongLineIsMerged`).
- The files kept are max_num + 1, numbered 0 to max_num. With exactly max_num files, a restart opens a new file even
  when the last one is not full (`ClosedFilesAreFullIff`, `RestartCutsShort`).
- A session that exits before it is queued, or before gc waits for the first time, is not noticed (`SleepingGcServesIff`,
  `MissedExitBlocks`); the former keeps the shell for good (`OrphanKeepsShell`, `EarlyExitBlocks`).
- The splitter of the console does not reset its quote flag between the passes and skips leading blanks in the first
  pass only (`PassesAgreeIff`, `LeadingBlankAddsOne`). The splitter of the server command skips the character behind a
  split unseen, so a quoted argument with a space in it is cut (`SplitsAtSpacesIff`, `ServerCommandIsCut`).
- A session is set active before the shell is refreshed for it, and input is not taken under the mutex. What the new
  session sends in between goes to the shell of the one before (`OneOwnerPerShellIff`, `StrayWriteIsPossible`).
- `game_stop` holds the mutex while it joins the wait thread. When it takes the mutex while that thread has seen the
  flag set but has not taken the mutex yet, both wait for ever (`StopBlocksIff`, `StopCanBlock`).

## Assumptions

- Strings hold no NUL, and files are NUL-free. Objects are garbage-collected; allocation succeeds.
- `atoi` is that of a 64-bit GNU C library: `strtol` clamps to a long and the low 32 bits are kept. The C standard
  leaves a value outside int undefined.
- A stream opened for appending stands at the end of its file.
- Whether a thread or a process can be created is a parameter. `pthread_cond_wait` may return without a signal.
- `pthread_cancel` and `pthread_join` on the shell thread return. Children are reaped by the wait thread only.
- What a thread does between two operations on shared state that others can come between is one step.

## Model

| member | source | states |
|---|---|---|
| Rings.Ring.InsertBefore | src/common/list.c:21-63 | The new node's own links and the head pointer; the ring stays a closed duplicate-free circle; the item lands at the head, before the position, or, when the position is the head, at the end |
| Rings.Ring.InsertAfter | src/common/list.c:65-104 | The same for insertion behind a node, or at the end when there is no position |
| Rings.Ring.Remove | src/common/list.c:106-126 | Exactly that node leaves the circle, the head moves on when it was the head, an empty ring stays empty |
| Rings.Ring.Destroy | src/common/list.c:149-162 | The destructor sees every item once, in ring order, and the ring is empty afterwards |
| Rings.Ring.Push | src/common/queue.h:36-38 | The item is queued behind all others |
| Rings.Ring.Pop | src/common/queue.h:40-48 | The front item comes out and the rest keep their order |
| Rings.FindByItem | src/common/list.c:128-147 | The first node that carries the item, or null exactly when none does |
| Rings.WalkVisitsEachNodeOnce | src/common/list.c:21-126 | Following next from the head visits the nodes in order and returns to the head after the last one |
| Rings.PrevInvertsNext | src/common/list.c:21-126 | prev and next undo each other on every node of the ring |
| CStrings.JumpSpace | src/config/ini.c:285-293 | The pointer moves over the leading blanks and no further, and the string goes on there |
| LineCutting.CutHeader | src/config/ini.c:315-327 | A header is read up to its closing bracket and rejected on any of the four stopping characters |
| LineCutting.FindKeyEnd | src/config/ini.c:346-352 | The end of the key name, or failure when the line ends first |
| LineCutting.StepOverEquals | src/config/ini.c:354-370 | At most one blank may stand before the equals sign; the name is terminated and the value starts behind the sign |
| LineCutting.CutAssignment | src/config/ini.c:340-388 | A key line cut in the buffer says what the pure reading of the line says |
| LineCutting.CutLine | src/config/ini.c:295-394 | The same for every kind of line; keys are rejected while no section is open |
| IniStore.SectionEntry.FindEntry | src/config/ini.c:436-459 | The walk around the key ring finds the first line with that key, or none when there is none |
| IniStore.SectionEntry.SetKey | src/config/ini.c:436-471 | The key's value is replaced where it stands, or the key is appended |
| IniStore.SectionEntry.DropKey | src/config/ini.c:134-154 | The first line with that key leaves the ring and the others keep their order |
| IniStore.SectionEntry.PrintLines | src/config/ini.c:191-214 | The inner printing loop yields every line of the section, in order |
| IniStore.IniFile.FindEntry | src/config/ini.c:406-421 | The first section of that name, or none when there is none |
| IniStore.IniFile.GetSection | src/config/ini.c:397-434 | An unknown section is appended, a known one is returned |
| IniStore.IniFile.SetInSection | src/config/ini.c:373-388 | Only that section's lines change |
| IniStore.IniFile.AddComment | src/config/ini.c:474-485 | A comment is appended to the open section, or to the document before the first section |
| IniStore.IniFile.AddBlank | src/config/ini.c:487-496 | The same for a blank line |
| IniStore.IniFile.GetKeyValue | src/config/ini.c:74-103 | The size the value needs and the value when the buffer is big enough; zero exactly when the section or key is missing, and nothing is created |
| IniStore.IniFile.SetKeyValue | src/config/ini.c:105-124 | The document on the heap becomes the value-level update of itself |
| IniStore.IniFile.RemoveKeyValue | src/config/ini.c:126-155 | The key leaves the document, and a missing section or key changes nothing |
| IniStore.IniFile.Take | src/config/ini.c:305-394 | What each kind of line does to the document and to the section that is open |
| IniStore.IniFile.AnalyseLine | src/config/ini.c:295-395 | One line of text has exactly the effect of one step of the pure loader, and a rejected line has none |
| IniStore.IniFile.Sync | src/config/ini.c:160-233 | The two nested loops write the printed form of the document |
| LineFile.TextFile.Gets | src/config/ini.c:253-255 | What a bounded line read stores, and how far the file moves |
| LineFile.ReadBehind | src/config/ini.c:261-274 | One doubling keeps the content and reads the next chunk behind it |
| LineFile.ReadBufLine | src/config/ini.c:247-283 | What one call returns and consumes and how big the buffer is then; the content always fits |
| LineReader.ReadsOneLineIff | src/config/ini.c:247-283 | A call returns exactly the first line if and only if that line fits the buffer, its newline starts a chunk, or nothing follows it |
| LineReader.TakenGrows | src/config/ini.c:258-276 | How far a line of a given length makes the buffer grow |
| LineReader.ReadAllIsSplitIff | src/config/ini.c:247-283 | Successive calls return the newline split of the file if and only if each line but the last fits, told from the lengths of the lines alone |
| LineReader.ReadsFewer | src/config/ini.c:247-283 | Otherwise fewer lines are read than the file has |
| LineReader.ShortLinesFit | src/config/ini.c:57-62 | Lines shorter than the first buffer always fit |
| LineReader.LongLineIsMerged | src/config/ini.c:258-276 | A line of 300 characters and the next one come back as one |
| LineReader.FirstBoundaries | src/config/ini.c:258-276 | With the first buffer, lines of 255, 510 and 1021 characters are still read alone, no other below 2044, and how far each makes the buffer grow |
| IniDialect.LineSaysIff | src/config/ini.c:295-394 | Told by characters alone: which lines are blank, comments, headers and assignments, and what each says; all others are rejected |
| IniDialect.KeyLine | src/config/ini.c:340-388 | A name, at most one blank, the equals sign and any blanks before the value, behind any blanks |
| IniDialect.BlankThenOtherLine | src/config/ini.c:355-362 | A blank behind the name and then anything but the equals sign, a second blank among others, is rejected |
| IniDialect.NoEqualsLine | src/config/ini.c:346-362 | So is a name without an equals sign |
| IniDialect.HeaderLine | src/config/ini.c:315-327 | A header in brackets behind any blanks; what follows the bracket is dropped |
| IniDialect.BadHeaderLine | src/config/ini.c:319-324 | A header that holds one of the three other stopping characters is rejected |
| IniDialect.OpenHeaderLine | src/config/ini.c:319-324 | So is a header that is not closed |
| IniDialect.CommentLine | src/config/ini.c:329-338 | A comment behind any blanks |
| IniDialect.PrintTop | src/config/ini.c:181-223 | What sections, comments and blanks at the top print |
| IniDialect.PrintInSection | src/config/ini.c:195-213 | What keys, comments and blanks in a section print |
| IniRoundTrip.ClassifyIsLegal | src/config/ini.c:295-394 | Whatever is read from one line could be printed on one line again |
| IniRoundTrip.StepIsSound | src/config/ini.c:295-395 | Every accepted line keeps the document well formed: unique sections, unique keys, legal names and values |
| IniRoundTrip.ParsedIsWellFormed | src/config/ini.c:295-472 | Every accepted text gives a well-formed document |
| IniRoundTrip.PrintedLoads | src/config/ini.c:160-233 | A printed well-formed document loads line by line to itself, with its last section open |
| IniRoundTrip.RoundTripIffWellFormed | src/config/ini.c:160-472 | Printing and parsing give the document back if and only if it is well formed |
| IniRoundTrip.NormalisationIsStable | src/config/ini.c:160-472 | Parsing, printing and parsing again equals the first parse, for every accepted text |
| IniLookup.StepAnswers | src/config/ini.c:295-472 | What one line does to every lookup, to the open section, and when it is refused |
| IniLookup.LookupIsLastAssigned | src/config/ini.c:74-103 | Loading succeeds exactly when every line is acceptable where it stands; each lookup is the value of the last line assigning that key in that section, or nothing |
| IniLookup.SetThenLookup | src/config/ini.c:105-124 | After an update that key answers with the new value and every other lookup is unchanged |
| IniLookup.SetIsFramed | src/config/ini.c:105-124 | All comments, blanks and other keys keep their places; at most one key and one section are added, each at the end |
| IniLookup.SetTwice | src/config/ini.c:115-124 | The last writer wins |
| IniLookup.SetIsWellFormedIff | src/config/ini.c:105-124 | An update keeps a document printable if and only if section, key and value are legal in a file |
| IniLookup.LayoutIsWellFormedIff | src/config/ini.c:160-233 | A document with the lines of a printable one, but other values, is printable if and only if every lookup in it answers with a legal value |
| IniLookup.RemoveUndoesSet | src/config/ini.c:105-158 | Removing a key that was just added gives the old document back |
| IniLookup.RemoveIsFramed | src/config/ini.c:126-155 | Exactly the first line with that key goes, and all others keep their order |
| IniLookup.RemoveThenLookup | src/config/ini.c:126-155 | A removed key is gone and every other lookup is unchanged |
| IniOpen.NextLine | src/config/ini.c:62-67 | One round of the loop consumes one line and loads it |
| IniOpen.LoadFile | src/config/ini.c:56-69 | The loop ends with the document that the lines of the file load, or fails exactly when one of them is refused |
| IniOpen.Open | src/config/ini.c:36-72 | Opening gives a heap document for exactly the texts that load |
| IniOpen.OpenIsParse | src/config/ini.c:36-72 | Opening is parsing whenever the lines fit the buffer |
| IniOpen.ShortTextOpens | src/config/ini.c:57-67 | A text with lines of at most 255 characters is parsed line by line |
| IniOpen.OpenMergesLongLine | src/config/ini.c:57-67 | A line of 256 characters is merged with the one behind it |
| IniOpen.ReopensIff | src/config/ini.c:36-233 | A document whose printed lines fit the buffer is what opening its file gives if and only if it is well formed; a well-formed document is if and only if its printed lines fit |
| IniOpen.ReopenIsStableIff | src/config/ini.c:36-233 | From a file whose lines fit the buffer: opening, writing and opening again gives the same document if and only if the written lines fit |
| IniOpen.ShortLinesStayShort | src/config/ini.c:36-233 | With short lines this needs nothing to be known about the document |
| Decimal.AtoiOfPrinted | src/config/config.c:117 | Reading a printed number gives it back, up to the conversion to int, whatever follows the digits |
| Decimal.AtoiOfText | src/config/config.c:117 | The number read behind spaces and a sign and before other text, and how it wraps when it does not fit |
| Decimal.AtoiOfNothing | src/config/config.c:117 | Text that does not start with a number reads as zero |
| Decimal.PrintedPlainly | src/config/config.c:304 | A printed number has no leading zeros |
| Decimal.PortReadsBack | src/config/config.c:298-308 | Every unsigned short survives printing and reading |
| Decimal.IntReadsBack | src/config/config.c:381-391 | So does every int, though negative ones are printed unsigned |
| Decimal.GetSize | src/config/config.c:403-434 | The scan for a unit letter scales the number modulo the size type |
| Decimal.SizeOfNumber | src/config/config.c:403-434 | A number alone is that many bytes |
| Decimal.SizeOfOther | src/config/config.c:403-434 | Behind a sign or a space no unit is found |
| Decimal.SizeOfPrinted | src/config/config.c:403-434 | A number and a unit letter mean that many units, whatever follows |
| Config.FetchShared | src/config/config.c:104-122 | A value is fetched whole through the shared buffer, which grows when needed |
| Config.FetchAll | src/config/config.c:62-211 | All nine values are fetched, or it fails exactly when one of the nine keys is missing |
| Config.Cache.Init | src/config/config.c:44-219 | Start succeeds exactly on files whose lines are acceptable and assign all nine keys; each field then comes from the last line that assigns its own key, converted as its type asks, and the cache is coherent |
| Config.Cache.Write | src/config/config.c:235-238 | The file gets the printed form of the document in memory |
| Config.Cache.SetPort | src/config/config.c:298-308 | Cache and document change together and stay coherent; nothing else changes |
| Config.Cache.SetUsername | src/config/config.c:328-341 | The same for the user name |
| Config.Cache.SetPasswd | src/config/config.c:361-374 | The same for the password |
| Config.Cache.SetMaxConnect | src/config/config.c:381-391 | The same for the connection limit, negative numbers included |
| Config.SetAnswers | src/config/config.c:298-391 | A setter changes the value of its own key and of none of the other eight |
| Config.TargetAnswers | src/config/config.c:298-391 | What each setter stores, under which section and key |
| Config.AfterSet | src/config/config.c:298-391 | Decoding the document after a setter gives the cache after the setter |
| ConfigRuns.RunIsCoherent | src/config/config.c:298-391 | Over any run of setters with any arguments every cached field is what the document in memory decodes to |
| ConfigRuns.RunKeepsLayout | src/config/config.c:298-391 | No run of setters moves, adds or drops a line of a loaded configuration |
| ConfigRuns.CacheIsWhatAReloadGivesIff | src/config/config.c:44-391 | After a start and any run of setters with any arguments, writing and starting again gives exactly the cached settings if and only if the cached name and password have no newline and no leading blank |
| ConfigRuns.RunReopensIff | src/config/config.c:44-391 | With a legal cached name and password the document itself survives if and only if the written lines fit the read buffer |
| ConfigRuns.ConsoleIsDurable | src/server/cmdline.c:447-535 | Everything the program itself passes to the setters satisfies that condition and fits a line |
| ConfigRuns.CacheIsWhatAReloadGives | src/config/config.c:44-391 | From a file of short lines and with such setters, the document survives as well, and every start on it computes exactly the cached settings |
| LogRotation.LogStream.FindLast | src/log/log.c:189-200 | The probing loop ends on the last file, except that with exactly max_num files it ends one further |
| LogRotation.LogStream.OpenLogFile | src/log/log.c:179-228 | The directory becomes the opened sequence of files, with the counter at the size of the last; it fails only when logging is off |
| LogRotation.LogStream.NextLog | src/log/log.c:230-257 | With all numbers in use the oldest file goes and the others move down one; otherwise only the number grows |
| LogRotation.LogStream.PrintLog | src/log/log.c:137-176 | A record goes to the open file, and afterwards the open file is below the limit again |
| LogRotation.KeptIsLastFew | src/log/log.c:53-257 | Over any mixture of records and restarts the files are exactly the last few of the log in which none is dropped |
| LogRotation.UncutHoldsHistory | src/log/log.c:137-257 | That log holds the first files followed by every record |
| LogRotation.UncutOnlyGrows | src/log/log.c:137-257 | In that log a closed file never changes again |
| LogRotation.LogConservation | src/log/log.c:53-257 | Dropped files followed by kept ones are the files of that log and hold the whole history; files are dropped whole, oldest first, and only from a full set |
| LogRotation.ClosedFilesAreFullIff | src/log/log.c:53-257 | From an empty directory every closed file is full and none overfull by a whole record, except file max_num - 1, which is full if and only if no restart came while there were exactly max_num files |
| LogRotation.NegativeKeepsOne | src/log/log.c:189-256 | A negative max_num keeps one file |
| LogRotation.CutShortForGood | src/log/log.c:189-216 | Such a file stays as short as it was, and stands at its place among the kept files until it is dropped |
| LogRotation.RestartCutsShort | src/log/log.c:189-216 | A run in which this happens |
| LogRotation.LogRetention | src/log/log.c:53-257 | From an empty directory, after any mixture of records and restarts, the whole history is kept or at least max_num full files of it, one less while a file that was cut short is kept; and never more than max_num overfull files and one that is not full |
| SessionProtocol.QueueKeeps | src/network/network.c:192-200 | Queueing a session, and activating it when it is alone, keeps the protocol invariant |
| SessionProtocol.GcKeeps | src/network/network.c:469-491 | So does a wake-up of the gc thread, by a signal or not, up to the activation of the front |
| SessionProtocol.StartShellKeeps | src/server/cmdline.c:137-154 | So does setting run_flag for the new shell, after which it belongs to the front |
| SessionProtocol.ExitKeeps | src/network/network.c:391-396 | So does the exit of any queued session, whether gc waits or not |
| SessionProtocol.ReceiveKeeps | src/network/network.c:548-553 | So do the unlocked tests of conn_receive at any time, also between an activation and the refresh for it |
| SessionProtocol.WriteKeeps | src/server/cmdline.c:183-196 | So does the write that follows them |
| SessionRuns.OneActiveAndConserved | src/network/network.c:192-505 | In every reachable state only the front may be active, and freed sessions followed by queued ones are all accepted ones in order |
| SessionRuns.InputBelongs | src/network/network.c:474-568 | Over every run all input comes from the session that the shell was last refreshed for or from the one that the next refresh is for; sessions get the shell in order of acceptance, each at most once |
| SessionInput.InputWasReceived | src/network/network.c:548-553 | Over every run, whatever is written to the shell is what a session sent while it was active and a shell ran: a newline and a terminator for input that starts with a carriage return, and the input itself otherwise |
| SessionRuns.OneOwnerPerShellIff | src/network/network.c:474-568 | All input between two refreshes comes from one session if and only if no session writes between its activation and the moment run_flag is set for it |
| SessionRuns.StrayWriteIsPossible | src/network/network.c:490-499 | A run in which the second session writes to the shell of the first |
| SessionRuns.SleepingGcServesIff | src/network/network.c:469-505 | While gc sleeps, the mutex is free and no signal is pending, the front is active with a living thread, or the queue is empty, if and only if the front did not exit before gc first waited, nor before it was queued |
| SessionRuns.GcRoundServesIff | src/network/network.c:469-505 | After every round of gc, whatever comes before it gives the mutex back, only an exit before queueing matters |
| SessionRuns.NothingIsMissed | src/network/network.c:391-505 | With gc waiting first and no session exiting before it is queued, the queue is served whenever the mutex is free and no signal is pending |
| SessionRuns.OrphanKeepsShell | src/network/network.c:185-200 | From any reachable state in which the front has the shell but has ended, over every run: it stays in front, no other session is activated, and no input reaches the shell |
| SessionRuns.EarlyExitBlocks | src/network/network.c:185-200 | A run to such a state: the session exits before it is queued |
| SessionRuns.MissedExitBlocks | src/network/network.c:469-471 | A run to the other failure: the session exits before gc waits for the first time |
| SessionServer.Shell.Begin | src/server/cmdline.c:137-145 | A shell that did not run is marked as running, in server mode; one that ran stays as it is |
| SessionServer.Shell.Created | src/server/cmdline.c:145-153 | The mark is taken back exactly when the thread could not be created |
| SessionServer.Shell.Stop | src/server/cmdline.c:156-168 | The shell is off afterwards |
| SessionServer.Server.Accept | src/network/network.c:192-198 | The critical section on the ring, up to server_refresh, takes the queueing step of the protocol |
| SessionServer.Server.StopShell | src/server/server.c:62-64 | The first half of server_refresh takes the stopping step |
| SessionServer.Server.StartShell | src/server/server.c:65 | Setting run_flag takes the starting step |
| SessionServer.Server.ShellCreated | src/server/cmdline.c:145-153 | The end of server_refresh takes the last step, after which the mutex is free |
| SessionServer.Server.ExitSession | src/network/network.c:391-396 | The exit section takes the exit step |
| SessionServer.Server.Receive | src/network/network.c:548-553 | Only input of the active session passes the tests, and only while a shell runs; a carriage return becomes a newline; any other session is to be told to wait |
| SessionServer.Server.Write | src/server/cmdline.c:183-196 | What passed the tests is written, whatever has happened to the shell since |
| SessionServer.Server.Notify | src/network/network.c:557-568 | Under the mutex the front session, if active, is told that another one waits, even when it is the one that was told to wait before |
| SessionServer.Server.FreeExited | src/network/network.c:474-484 | The release loop frees exactly the exited sessions at the front, in order |
| SessionServer.Server.HandOn | src/network/network.c:486-504 | The waiting front session is set active, and server_refresh is due; with no session the shell stops |
| SessionServer.Server.CollectAndHandOn | src/network/network.c:469-505 | A round of gc up to server_refresh takes the gc step of the protocol |
| SessionServer.SendTranslated | src/network/network.c:437-450 | The pieces written to the channel are the text with a carriage return before every newline |
| SessionServer.NewlinesAreReturned | src/network/network.c:437-450 | Every newline that is sent has a carriage return right before it |
| SessionServer.TranslationIsTheOnlyOne | src/network/network.c:437-450 | And nothing else has this property and restores to the same text |
| SessionServer.TranslationIsReversible | src/network/network.c:437-450 | No output is lost: the text can be restored from what was sent |
| CommandWords.PassesAgreeIff | src/server/cmdline.c:282-343 | For a command that is not blank the filling pass stores exactly the counted number of arguments if and only if: quotes are even and no blank leads, or quotes are odd and as many gaps lie inside quotes as outside |
| CommandWords.FilledFitIff | src/server/cmdline.c:282-345 | The counted vector has room for what is stored under the same condition with no more gaps inside than outside |
| CommandWords.LeadingBlankAddsOne | src/server/cmdline.c:282-343 | A leading blank: one argument is counted and two are stored |
| CommandWords.GapInOpenQuoteAddsOne | src/server/cmdline.c:282-343 | A gap behind an open quote: one is counted and two are stored |
| CommandWords.GapBeforeOpenQuoteDropsOne | src/server/cmdline.c:282-343 | A gap before an open quote: two are counted and one is stored |
| CommandWords.CountIsGaps | src/server/cmdline.c:292-309 | A pass sees one argument more than runs of blanks it takes for unquoted |
| CommandWords.FilledIsWords | src/server/cmdline.c:320-343 | What the arguments are for every command that is not blank: the fields between blanks outside quotes, or inside them when the quotes are odd, without empty fields and without quotes |
| CommandWords.QuotingRoundTrip | src/server/cmdline.c:270-350 | Any list of quote-free arguments, between quotes of either kind, or bare when they hold no blanks, with any blanks between them, comes back from the analysis |
| CommandLine.CountArgs | src/server/cmdline.c:282-309 | The counting pass on the buffer, the blank command, and the quote flag it leaves behind |
| CommandLine.FillArgs | src/server/cmdline.c:315-345 | The filling pass stores the arguments and a terminator; its scratch buffer is never left |
| CommandLine.AnalyseCommand | src/server/cmdline.c:270-350 | No vector for a blank command; otherwise the arguments and a terminator, as many as counted if and only if the passes agree |
| ExecWords.SplitsAtSpacesIff | src/server/game-server.c:232-263 | The splitting pass stays in the command and splits exactly at the counted spaces if and only if no unquoted space is followed by the end, by a space, or by a quote with spaces to come |
| ExecWords.SplitsWhere | src/server/game-server.c:249-263 | For every command, where the splits are and whether the pass runs over the end: the first, third and so on of every run of spaces outside quotes, or inside them while the pass reads the other way round, which it does from one quote right behind an odd run of such spaces to the next |
| ExecWords.FitsIff | src/server/game-server.c:232-263 | For every command, when the pass stays in the command and in the vector, told from its quotes and runs of spaces |
| ExecWords.PlainFitsIff | src/server/game-server.c:232-263 | With no quote behind an odd run of unquoted spaces the counted vector has room, and the pass stays in the command if and only if that does not end in such a run |
| ExecWords.HiddenQuoteFitsIff | src/server/game-server.c:232-263 | With one turn, at quote q: the pass stays in the command if and only if that does not end in an odd run of quoted spaces, and the vector has room if and only if the heads of runs outside quotes before q and inside quotes behind it are no more than the unquoted spaces |
| ExecWords.LoneFitsIff | src/server/game-server.c:232-263 | When spaces stand alone: with the first quote right behind an unquoted space at q, the vector has room if and only if behind q no more spaces are quoted than unquoted |
| ExecWords.WordsComeBack | src/server/game-server.c:232-263 | A command of plain words with single spaces splits into these words |
| ExecWords.QuotedSpaceStays | src/server/game-server.c:249-263 | A space between quotes of either kind inside a word does not split |
| ExecWords.ServerCommandIsCut | src/server/game-server.c:244-263 | Commands with a quoted argument of two words are cut inside the quotes |
| ExecWords.ThreeQuotedWordsDoNotFit | src/server/game-server.c:244-263 | With three quoted words more arguments are stored than counted |
| ExecWords.SpaceAtEndOverruns | src/server/game-server.c:254-260 | With a space at the end the pass runs over the end of the command |
| ExecWords.PiecesMakeCommand | src/server/game-server.c:244-263 | The pieces joined by single spaces are the command, quotes included, whatever the splits are |
| ExecWords.NoSpaceInPiece | src/server/game-server.c:244-263 | On a clean command no piece holds an unquoted space |
| ExecWords.CountSpaces | src/server/game-server.c:232-242 | The counting pass |
| ExecWords.SplitInPlace | src/server/game-server.c:244-263 | In place, the pass stores one pointer for each piece of the command and the terminator |
| ExecWords.SplitCommand | src/server/game-server.c:217-263 | From the copy of the command on: the vector of the counted size takes the pieces, and is full on a clean command |
| Supervisor.StepKeeps | src/server/game-server.c:82-316 | Every step of start, stop, the wait thread and the child keeps the supervisor's invariant |
| Supervisor.SupervisorIsSafe | src/server/game-server.c:82-316 | Over every interleaving there is at most one wait thread and one child, a thread only waits for its own child, and a stopped server with the mutex free has neither |
| Supervisor.StopLeavesNothing | src/server/game-server.c:106-123 | When stop returns, neither a wait thread nor a child exists |
| Supervisor.ForksAndWaitsAlternate | src/server/game-server.c:292-312 | The server is never forked again before the last child has been waited for |
| Supervisor.StopBlocksIff | src/server/game-server.c:106-123 | While stop holds the mutex, nothing can ever move again if and only if the wait thread was between the flag and the mutex |
| Supervisor.StopReturnsSoon | src/server/game-server.c:106-123 | Otherwise every run from there has at most four steps before stop can return, and some step is always possible |
| Supervisor.StopCanBlock | src/server/game-server.c:296-299 | A run that comes to the blocked state |
| Supervisor.Game.StartBegin | src/server/game-server.c:82-95 | The step that start takes before it creates the thread |
| Supervisor.Game.StartCreate | src/server/game-server.c:93-104 | Start succeeds exactly when the thread could be created, and takes the flag back otherwise |
| Supervisor.Game.StopBegin | src/server/game-server.c:106-117 | Stop waits for the one living thread, or finds nothing to stop |
| Supervisor.Game.StopEnd | src/server/game-server.c:117-121 | When the thread has returned nothing is left |
| Supervisor.Game.Check | src/server/game-server.c:296 | The thread goes on exactly while the flag is set |
| Supervisor.Game.RunServer | src/server/game-server.c:298-307 | A child is forked only when there is no other, and a failed fork leaves the thread at its loop condition |
| Supervisor.Game.CallWait | src/server/game-server.c:311 | What server_pid holds when waitpid is called is the thread's own child |

## Left out

- IniStore.IniFile.RemoveKeyValue: asks for a section that holds keys only, because the loop compares names without looking at the kind of line, which on a comment or a blank reads memory of another type.
- IniStore.SectionEntry.DropKey: asks for the same.
- IniStore.SectionEntry.SetKey: a key has the empty string as its value between its creation and the assignment that always follows it; the code has a null pointer there.
- IniStore.IniFile.AnalyseLine: cuts the whole line before it changes the document; the code changes the document as soon as it has cut what that needs, which makes no difference because a line is rejected only before.
- CommandLine.AnalyseCommand: asks that the stored arguments fit the counted vector, by the condition of `FilledFitIff`; without it the code writes outside the vector.
- ExecWords.SplitInPlace: asks that the pass stays in the command and that the vector has room; without that the code leaves the one or the other.
- ExecWords.SplitCommand: asks for the same; `FitsIff` tells a caller when that holds, and `PlainFitsIff`, `HiddenQuoteFitsIff` and `LoneFitsIff` tell it more simply where the pass turns round never or once.
- ConfigRuns.CacheIsWhatAReloadGivesIff: asks that the lines of both files fit the read buffer, by the condition of `ReadAllIsSplitIff`, so that what is written can be read; `CacheIsWhatAReloadGives` derives that from the length of the lines of the first file.
- Config.Cache.Init: the fields are assigned together after all nine keys have been found. On failure the code leaves the earlier ones assigned; the program ends then.
- LogRotation.LogStream.FindLast: asks for contiguous file numbers and at most max_num + 1 files.
- LogRotation.LogStream.NextLog: asks for contiguous file numbers.
- LogRotation.LogStream.OpenLogFile: asks for contiguous file numbers and at most max_num + 1 files. A failing `fopen`, `rename` or `fprintf` and the retry loop around them are not modelled.
- SessionRuns.InputBelongs: input is recorded when it is written; how the pipe to the shell buffers it, and which shell reads it, is not part of the model.
- Input from a session whose thread runs but which is not queued yet; it cannot be active.
- Supervisor.Game.StopBegin: the shell thread may be cancelled while it runs `game_stop`, in `sleep` or in `pthread_join`, and then keeps the supervisor's mutex for good (src/server/game-server.c:110-117, src/server/cmdline.c:160-163); cancellation is not modelled.
- SessionServer.Server.StopShell: a shell thread in `network_logoff` waits for the mutex that gc holds while it joins that thread, and no cancellation comes through there (src/network/network.c:228, src/network/network.c:499); the model lets the shell stop at once.
- Supervisor.StopReturnsSoon: bounds the steps and shows that one is always possible; that the child exits when it is told to is up to the child, and scheduling is not modelled.
- `network_quit`, `network_logoff`, the break path of `send_thread`, `daemon`, the lock file and the order of start-up and shutdown in main.c: they depend on thread cancellation or the operating system.
- libssh, authentication, key exchange, sockets, signals and pty callbacks.
- Time stamps, `chmod`, privileges, the working directory, `execvp`, and the pipes to the server.
- The console's `readline` loop, `get_line_input` and its messages, and the dispatch on command names.
- The getters of config.c and the wrappers of server.c, which only copy or forward.
- Memory: failing allocations, leaks and the order of frees.
