# A verified model of the GameMCU plugin core

This is a model of three parts of the Sublime Text plugin that talks to a
NodeMCU (ESP32, Lua) board:

- **The serial monitor engine** (`libs/serial_monitor.py`):
  - the connection state machine: `start`, `stop`, the port and baud-rate setters, and the reader thread's liveness flag;
  - the reader loop and its error path, both as written and corrected so that a failed read also closes the link (see "## Findings"); `Coherent` and the class `Monitor` follow the corrected reader;
  - the byte cleaner `data2str` and the echo check `_is_echo`;
  - the command/response routine `_command`, with its poll loop of at most 1000 reads that ends at the `"\n> "` prompt, its echo check and its reply check;
  - the verb dispatcher of `send` and the built-in routines `ls`, `rm`, `cat` and `touch`;
  - the upload task `_upload_task`, which writes a Lua file to the board line by line.
- **The firmware flash-argument check** (`FirmwareUploadArgs.__init__` in `libs/gm_manager.py`):
  - reading `(address, file)` pairs out of a flat list, with Python's `int(s, 0)` for the addresses;
  - sorting the pairs by address;
  - computing sector-aligned ranges by masking;
  - refusing overlaps.

  The same section covers the firmware-name and download-address derivation and the control flow of `_firmware_download_task`, which calls `on_done` only after a successful fetch and unpack.
- **The command history and the deletion guard** (`libs/gm_panel.py`):
  - the clamped cursor of `HistoryMatchList`;
  - `History.push` and `MemHistory.append`/`match`;
  - `GmPanel.ensure_history_match`, `previous_command` and `next_command`, with the user's input as a parameter;
  - `GmPanel.allow_deletion`.

Files:

| file | contents |
|---|---|
| `wrappers.dfy` | `Option` and `Result` |
| `text.dfy` | the string operations the code uses: `replace`, `in`, `startswith`, `strip`/`rstrip`, posixpath's `basename`/`join`, Python 3's `\w` class, and `%d`/`%x` formatting |
| `word_chars.dfy` | the code points above U+007F that `str.isalnum()` accepts, as of Unicode 15.0.0 |
| `serial_protocol.dfy` | the value-level half of the serial monitor: cleaning, echo check, polling, scripts of exchanges, verb dispatch, upload script |
| `serial_monitor.dfy` | the monitor's whole observable state `Conn`, each operation as a function on it, and the classes `SerialLink` and `Monitor`, whose methods update fields in place and are proved to agree with those functions; the reader loop of `Monitor` is the corrected `ReaderStep`, and the code's own fault path is `ReaderStepAsWritten` |
| `gm_manager.dfy` | `int(s, 0)`, sector arithmetic, the flash-argument check (as functions and as the source's loops), and the download task |
| `gm_panel.dfy` | the classes `HistoryMatchList`, `MemHistory` and `Panel` and the deletion predicate |

How the environment is modelled:

- The serial port is a `SerialLink`. Its reads return a supplied sequence of chunks. Each chunk is some bytes or a `SerialException` with its message. Once the supply is used up, every read times out and returns nothing. Writes append to a log.
- Whether `open` raises is a parameter of `start`, of the setters and of `_check_ready`.
- The reader thread is its liveness flag, plus a count of the reader loops running. At most one ever runs.
- `_run` is a loop bounded by a number of passes given as a parameter.
- A file on the host is known by its size: a map from path to size. A path that is not in the map cannot be opened.
- The flash sector size is `2^sectorBits`. esptool's `FLASH_SECTOR_SIZE` is 0x1000, that is `sectorBits = 12`.
- The network, the file system and the zip library of the download task are parameters.
- A file to upload is what `readline` delivers from it: its decoded text and, for a file that is not valid UTF-8, the `UnicodeDecodeError` raised after that text.
- `open` on a link that is open already raises pyserial's "Port is already open.".
- The interpreter is Python 3 as Sublime Text's plugin hosts run it, 3.3 or 3.8. There `Thread.isAlive` exists, so `_stop_read_thread`'s `self.thread.isAlive()` (`libs/serial_monitor.py:162`) is taken to succeed. Python 3.9 removed that method, and there every stop with a live reader would raise `AttributeError`.

Notes on the code:

- `_upload_task` skips a line when the raw line, not the stripped line, starts with `--` (`libs/serial_monitor.py:240`). So an indented comment is uploaded.
- The upload's `_command` calls leave `echo` at its default `True` (`libs/serial_monitor.py:236-244`). So every reply of an upload is shown.

## Model

| member | source | states |
|---|---|---|
| SerialProtocol.Data2StrIsFilter | libs/serial_monitor.py:182-184 | the cleaned text is the received bytes with every CR and ESC removed, the others kept in order; it contains no CR and no ESC |
| SerialProtocol.CrlfStepIsIdle | libs/serial_monitor.py:183 | once CR is removed, the CRLF-to-LF replacement changes nothing |
| SerialProtocol.Data2Str | libs/serial_monitor.py:182-184 | defines the cleaner: the three `replace` calls in the source's order; `Data2StrIsFilter` and `Data2StrAppend` state what it does |
| SerialProtocol.Echoes | libs/serial_monitor.py:23-27 | defines the echo check: every character of the command occurs in the packet; `IsEcho` proves the loop computes it |
| SerialProtocol.Data2StrAppend | libs/serial_monitor.py:182-184 | cleaning commutes with concatenation, so the result does not depend on how the stream was chunked |
| SerialProtocol.IsEcho | libs/serial_monitor.py:23-27 | the loop with early exit returns true exactly when every character of the command occurs in the packet |
| SerialProtocol.EchoesIsCharacterSubset | libs/serial_monitor.py:23-27 | the echo check holds exactly when the command's set of characters is a subset of the packet's: order and count are ignored |
| SerialProtocol.Poll | libs/serial_monitor.py:215-221 | the poll loop makes at least one and at most `fuel` reads; with no iterations left the packet is empty |
| SerialProtocol.PollStopsAtFirstStop | libs/serial_monitor.py:215-221 | when read k is the first empty read, or the first after which the buffer holds the prompt, the packet is the cleaned bytes of reads 0..k and k+1 reads were made |
| SerialProtocol.PollFailsAtFirstFault | libs/serial_monitor.py:215-216 | a read that raises ends polling with that error |
| SerialProtocol.PollGivesUp | libs/serial_monitor.py:214-221 | after 1000 reads with no stop the packet stays empty |
| SerialProtocol.PollSkips | libs/serial_monitor.py:215-221 | reads that neither fail nor stop only extend the buffer |
| SerialProtocol.Exchange | libs/serial_monitor.py:206-227 | one `_command` call makes at most 1000 reads |
| SerialProtocol.ExchangeVerdict | libs/serial_monitor.py:222-227 | `DeviceEchoError` exactly when the echo check fails; otherwise `DeviceReplyError` exactly when a reply is required and is not a substring of the packet; success otherwise |
| SerialProtocol.ExchangeBounded | libs/serial_monitor.py:215 | every exchange reads at most 1000 times |
| SerialProtocol.Framing | libs/serial_monitor.py:210 | each command is written followed by CRLF, one write per command |
| SerialProtocol.Script | libs/serial_monitor.py:234-248 | defines a run of exchanges that stops at the first raised error, for any single exchange; `ScriptSends`, `ScriptSnoc` and `ScriptStopsAtFailure` state its laws |
| SerialProtocol.RunScript | libs/serial_monitor.py:206-227 | a run of `_command` calls: `Script` over the engine's `Exchange` |
| SerialProtocol.ScriptSends | libs/serial_monitor.py:234-248 | a run of commands writes a prefix of them, each framed; it writes all of them on success and at least the failing one on failure; it makes at most 1000 reads per command written |
| SerialProtocol.ScriptSnoc | libs/serial_monitor.py:234-244 | one more command after a successful run extends it by that command's exchange on the remaining reads |
| SerialProtocol.ScriptStopsAtFailure | libs/serial_monitor.py:234-248 | the first error aborts the rest of the run |
| SerialProtocol.WordRunShape | libs/serial_monitor.py:190 | `\w+` takes the maximal leading run of word characters: `_` and every character `str.isalnum()` accepts, beyond ASCII too |
| SerialProtocol.NonSpaceRunShape | libs/serial_monitor.py:190 | `\S*` takes the maximal leading run of non-space characters |
| SerialProtocol.MatchCommandWord | libs/serial_monitor.py:190 | the match exists exactly when the text starts with a word character; the word is then the maximal leading word run |
| SerialProtocol.MatchCommandArgument | libs/serial_monitor.py:190-192 | the argument is the maximal non-space run after the whitespace that follows the word |
| SerialProtocol.MatchCommand | libs/serial_monitor.py:190-192 | defines `re.match(r'(\w+)\s*(\S*)', text)` as maximal runs from the start; `MatchCommandWord` and `MatchCommandArgument` state its groups |
| SerialProtocol.RouteOf | libs/serial_monitor.py:190-204 | defines where `send` directs a line: a built-in when the match's word names a verb, the board otherwise; `RouteBuiltinIff` states when |
| SerialProtocol.VerbNameIsWord | libs/serial_monitor.py:41-46 | each built-in verb's name is a non-empty word |
| SerialProtocol.VerbNamedInverse | libs/serial_monitor.py:193 | the lookup in `support_excmds` finds a verb exactly for that verb's name |
| SerialProtocol.RouteBuiltinIff | libs/serial_monitor.py:190-194 | a line runs a built-in exactly when it starts with the verb's name and no word character follows the name |
| SerialProtocol.WordRunMaximal | libs/serial_monitor.py:190 | a word-character prefix that ends at a non-word character or at the end is the whole word run |
| SerialProtocol.NonSpaceRunMaximal | libs/serial_monitor.py:190 | a non-space prefix that ends at a space or at the end is the whole argument run |
| SerialProtocol.MatchBareWord | libs/serial_monitor.py:190 | a word alone matches with an empty argument |
| SerialProtocol.RouteBareVerb | libs/serial_monitor.py:190-194 | a verb's name alone runs that verb with an empty argument |
| SerialProtocol.ArgumentAfterSpace | libs/serial_monitor.py:190 | after one space, a space-free argument is taken whole |
| SerialProtocol.MatchWordThenArgument | libs/serial_monitor.py:190 | a word, a space and a space-free argument are matched as the two groups |
| SerialProtocol.RouteVerbWithArgument | libs/serial_monitor.py:190-194 | `cat init.lua` runs `cat` on `init.lua`, and likewise for every verb and argument |
| SerialProtocol.RouteStatementExample | libs/serial_monitor.py:190-204 | `print(1+1)` passes through to the board |
| SerialProtocol.RouteLongerWordExample | libs/serial_monitor.py:190-204 | `lsx` passes through: only a whole word names a verb |
| SerialProtocol.RouteOtherWord | libs/serial_monitor.py:190-204 | a line whose whole leading word is no verb's name passes through |
| SerialProtocol.RouteAccentedWordExample | libs/serial_monitor.py:190-204 | `touché` passes through: `é` is a word character, so the word is not `touch` |
| SerialProtocol.RouteAssignmentExample | libs/serial_monitor.py:190-194 | the Lua line `cat = 1` is taken for the verb `cat` with the argument `=` |
| SerialProtocol.TouchReport | libs/serial_monitor.py:63-66 | `touch` shows the prompt exactly when both exchanges succeed, and otherwise reports the first error |
| SerialProtocol.CatReport | libs/serial_monitor.py:51-57 | `cat` lets no error escape; on a failure it shows only the line saying it cannot open the file |
| SerialProtocol.LineEnd | libs/serial_monitor.py:238 | a line read from a position is not empty unless at the end; it ends one past its first `str.splitlines` break, `\r\n` counting as one, or at the end of the text; an ending `\r` is never followed by `\n` |
| SerialProtocol.ReadLine | libs/serial_monitor.py:238-242 | `readline` returns the empty string exactly at the end of the file |
| SerialProtocol.LinesCoverText | libs/serial_monitor.py:238-242 | the lines read, put back together, are the whole file |
| SerialProtocol.LinesAreLines | libs/serial_monitor.py:238-242 | no line read is empty; each holds at most one line break, at its end; every line but the last ends in one; a line ending in `\r` is never followed by one starting with `\n` |
| SerialProtocol.LineEndAtBreak | libs/serial_monitor.py:238 | a line runs to its first line break other than `\r`, taking a `\r` just before it along |
| SerialProtocol.LineEndAtReturn | libs/serial_monitor.py:238 | a `\r` that no `\n` follows ends a line |
| SerialProtocol.CarriageReturnEndsLine | libs/serial_monitor.py:238-242 | `--old\rprint(1)\n` is read as the two lines `--old\r` and `print(1)\n` |
| SerialProtocol.CarriageReturnEndsComment | libs/serial_monitor.py:238-242 | so the comment is skipped and `print(1)` is written |
| SerialProtocol.FormFeedEndsLine | libs/serial_monitor.py:238-242 | a form feed ends a line: `a=1\fb=2\n` is two lines |
| SerialProtocol.WriteLineCommand | libs/serial_monitor.py:241 | defines the command that writes one stripped line between `[==[` and `]==]` |
| SerialProtocol.Lines | libs/serial_monitor.py:238-242 | defines the lines `readline` returns from a position until the end; `LinesCoverText` and `LinesAreLines` state them |
| SerialProtocol.WriteStepsAppend | libs/serial_monitor.py:239-242 | the write-line commands of two runs of lines are those of each, in order |
| SerialProtocol.CommentsWriteNothing | libs/serial_monitor.py:240 | a file of `--` lines sends no write-line command |
| SerialProtocol.ScriptNeverDecodeFails | libs/serial_monitor.py:206-227 | the exchanges never fail with a decoding error: only reading the file does |
| SerialProtocol.UploadRunOutcome | libs/serial_monitor.py:234-248 | a file that decodes runs the whole upload script; one that does not always fails, writes a prefix of the commands for the lines before the error and never the flush or the close, and reports the decoding error exactly when those commands all succeeded |
| SerialProtocol.UploadRun | libs/serial_monitor.py:234-248 | defines the body of the upload's `try`: head, write-lines and tail, or, for a file that does not decode, head and write-lines and then the decoding error; `UploadRunOutcome` states it |
| SerialProtocol.UploadFraming | libs/serial_monitor.py:236-244 | every upload starts with `file.close()` and then `=file.open('<name>','w')`, which requires `true`, and ends with `file.flush()` and `file.close()`; a file of comments only sends just those four commands |
| SerialMonitor.StartIgnored | libs/serial_monitor.py:126-127 | `start` does nothing when already connected or when the link's port or baud rate is unset |
| SerialMonitor.Started | libs/serial_monitor.py:108-140 | defines `start` on the state: `_check_ready` with its first open and its retry after `_ser_init`, then the connected branch; `StartIgnored`, `StartOutcome` and `CoherentStarted` state it |
| SerialMonitor.Stopped | libs/serial_monitor.py:142-148 | defines `stop` on the state; `StopOutcome` and `CoherentStopped` state it |
| SerialMonitor.PortChanged | libs/serial_monitor.py:76-81 | defines the port setter: nothing for the same port, otherwise `stop`, the new port on the link, and `start`; `NewPortConnects` and `FailedPortFallsBack` state it |
| SerialMonitor.BaudChanged | libs/serial_monitor.py:87-92 | defines the baud-rate setter in the same way; `SettersIgnoreSameValue` and `CoherentChanged` state it |
| SerialMonitor.StartOutcome | libs/serial_monitor.py:108-140 | otherwise `start` connects exactly when the first open succeeds (it fails with "Port is already open." on an open link), or when it fails and the retry on the monitor's own settings succeeds; connected, it takes the link's port and baud rate and announces them when `log` is set; not connected, it reports the last error and keeps its state |
| SerialMonitor.StopOutcome | libs/serial_monitor.py:142-148 | `stop` does nothing when not connected; otherwise both flags are clear, no reader runs, the link is closed and the port is announced when `log` is set |
| SerialMonitor.SettersIgnoreSameValue | libs/serial_monitor.py:76-92 | setting the port or the baud rate the monitor already has changes nothing |
| SerialMonitor.NewPortConnects | libs/serial_monitor.py:76-81 | a new port that opens becomes the connected port, at the link's baud rate |
| SerialMonitor.FailedPortFallsBack | libs/serial_monitor.py:108-122 | a new port that fails to open, while the monitor holds a usable port, reconnects to that port |
| SerialMonitor.ThreadStartIdempotent | libs/serial_monitor.py:150-155 | a second `_start_read_thread` starts nothing; a reader is started only when the flag is clear |
| SerialMonitor.ReaderStepAsWritten | libs/serial_monitor.py:166-177 | defines one pass of `_run` as written: a failed read clears the flags and the port and shows the error, and leaves the link open; `ReadFaultStrandsAsWritten` states what follows |
| SerialMonitor.ReaderStep | libs/serial_monitor.py:166-177 | defines the corrected pass of "## Findings": `ReaderStepAsWritten`, with the link also closed after a failed read; `ReadFaultDisconnects` and `ReadFaultAllowsReconnect` state it |
| SerialMonitor.ReadFaultDisconnects | libs/serial_monitor.py:167-174 | in the corrected reader of "## Findings", a failed read ends the reader, clears `_is_ready`, forgets the port, closes the link and reports the error on its own line; the code itself does all of this but the closing (`ReaderStepAsWritten`, `ReadFaultStrandsAsWritten`) |
| SerialMonitor.ReadFaultStrandsAsWritten | libs/serial_monitor.py:169-174 | as written, after a failed read the link stays open, `stop` does nothing, and every `start` fails with "Port is already open." without a retry |
| SerialMonitor.ReadFaultAllowsReconnect | libs/serial_monitor.py:108-140 | with the link closed after a failed read, the invariant holds and a `start` whose open succeeds connects again with the old settings |
| SerialMonitor.ReaderRuns | libs/serial_monitor.py:165-180 | while no read fails, each pass of the reader consumes one read and shows the cleaned bytes of each non-empty read |
| SerialMonitor.ShownIsStream | libs/serial_monitor.py:176-184 | the texts the reader shows, put together, are the cleaned byte stream, however it was chunked |
| SerialMonitor.ReadForSettles | libs/serial_monitor.py:166-179 | once the flag is clear, further passes of the reader loop change nothing |
| SerialMonitor.SendPassThrough | libs/serial_monitor.py:186-204 | `send` does nothing when not connected; a line that is not a built-in is written as it is, with CRLF |
| SerialMonitor.Sent | libs/serial_monitor.py:186-204 | defines `send` on the state; `SendPassThrough`, `SendBuiltin` and `CoherentSent` state it |
| SerialMonitor.SendBuiltin | libs/serial_monitor.py:190-200 | a built-in runs its routine's commands with the reader stopped; the reader is running again afterwards whatever happened; the routine's messages are shown, then the error that escaped it |
| SerialMonitor.AfterTaskOutcome | libs/serial_monitor.py:234-250 | a task run on a connected monitor leaves it connected with its one reader running, and shows the error that ended the run, if any |
| SerialMonitor.UploadOutcome | libs/serial_monitor.py:229-250 | an upload writes a prefix of its script; it succeeds exactly when the file decodes and every exchange succeeds, and then writes all of it; otherwise the first error, a decoding error included, is shown after the run's messages; the reader is running afterwards in every case |
| SerialMonitor.UploadIgnored | libs/serial_monitor.py:229-232 | nothing happens when not connected or when the file cannot be opened |
| SerialMonitor.Uploaded | libs/serial_monitor.py:229-250 | defines `_upload_task` on the state; `UploadOutcome`, `UploadIgnored` and `CoherentUploaded` state it |
| SerialMonitor.CoherentStarted | libs/serial_monitor.py:126-140 | `start` keeps the invariant: one reader runs exactly while connected, the link is open exactly while connected, and a connected monitor's settings are those of its open link |
| SerialMonitor.CoherentStopped | libs/serial_monitor.py:142-148 | `stop` keeps the invariant and leaves the monitor disconnected |
| SerialMonitor.CoherentChanged | libs/serial_monitor.py:76-92 | the setters keep the invariant |
| SerialMonitor.CoherentSent | libs/serial_monitor.py:186-204 | `send` keeps the invariant |
| SerialMonitor.CoherentUploaded | libs/serial_monitor.py:229-250 | the upload task keeps the invariant |
| SerialMonitor.CoherentReading | libs/serial_monitor.py:165-180 | the corrected reader loop of "## Findings" keeps the invariant, including on a read failure; as written the code breaks its `linkOpen == ready` part (`ReadFaultStrandsAsWritten`) |
| SerialMonitor.ExchangeExtends | libs/serial_monitor.py:206-227 | one more `_command` after a successful run extends the run's effect on the link and the messages |
| SerialMonitor.SerialLink.constructor | libs/serial_monitor.py:94-100 | a new link has the given settings, is closed and has written nothing |
| SerialMonitor.SerialLink.Open | libs/serial_monitor.py:113 | `open` on an open link raises "Port is already open."; otherwise it raises the given error; the link is open afterwards unless it was closed and the open raised |
| SerialMonitor.SerialLink.Close | libs/serial_monitor.py:146 | the link is closed |
| SerialMonitor.SerialLink.Renew | libs/serial_monitor.py:116 | `_ser_init` gives the link new settings and leaves it closed |
| SerialMonitor.SerialLink.Write | libs/serial_monitor.py:210 | the data is appended to what was written |
| SerialMonitor.SerialLink.Read | libs/serial_monitor.py:216 | a read returns the next supplied result and consumes it |
| SerialMonitor.Monitor.constructor | libs/serial_monitor.py:32-40 | a new monitor is disconnected, has no port and runs at 115200 baud |
| SerialMonitor.Monitor.Show | libs/serial_monitor.py:36 | putting a line on the message queue appends it and changes nothing else |
| SerialMonitor.Monitor.StartReadThread | libs/serial_monitor.py:150-155 | the state afterwards is `ThreadStarted` of the state before |
| SerialMonitor.Monitor.StopReadThread | libs/serial_monitor.py:157-163 | the state afterwards is `ThreadStopped` of the state before |
| SerialMonitor.Monitor.CheckReady | libs/serial_monitor.py:108-124 | an open of an open link fails with "Port is already open."; after a failed open, it renews the link and retries only when the monitor has a port and a baud rate; it reports the error of the last open |
| SerialMonitor.Monitor.Start | libs/serial_monitor.py:126-140 | the new state is `Started` of the old one, and the invariant holds |
| SerialMonitor.Monitor.Stop | libs/serial_monitor.py:142-148 | the new state is `Stopped` of the old one, and the invariant holds |
| SerialMonitor.Monitor.SetPort | libs/serial_monitor.py:76-81 | the new state is `PortChanged` of the old one, and the invariant holds |
| SerialMonitor.Monitor.SetBaudrate | libs/serial_monitor.py:87-92 | the new state is `BaudChanged` of the old one, and the invariant holds |
| SerialMonitor.Monitor.ReadOnce | libs/serial_monitor.py:166-177 | one pass of the reader loop is the corrected `ReaderStep` of "## Findings", which also closes the link after a failed read; the code's own pass is `ReaderStepAsWritten`, which leaves it open |
| SerialMonitor.Monitor.Run | libs/serial_monitor.py:165-180 | the reader loop for at most `passes` passes is `ReadFor`, built on the corrected `ReaderStep` of "## Findings", and the invariant holds |
| SerialMonitor.Monitor.PollReads | libs/serial_monitor.py:213-221 | the poll loop returns `Poll` of the reads at hand and consumes exactly the reads it made |
| SerialMonitor.Monitor.Command | libs/serial_monitor.py:206-227 | `_command` has the outcome of `Exchange`; its effect on the link and the queue is the single exchange |
| SerialMonitor.Monitor.CommandAfter | libs/serial_monitor.py:206-227 | after a successful run of commands, `_command` extends that run |
| SerialMonitor.Monitor.ListFiles | libs/serial_monitor.py:48-49 | `_ls` does what its one-command script does |
| SerialMonitor.Monitor.RemoveFile | libs/serial_monitor.py:59-61 | `_rm` runs its script and shows the prompt only on success; its error escapes |
| SerialMonitor.Monitor.TouchFile | libs/serial_monitor.py:63-66 | `_touch` runs its two-command script, stops at the first error, and shows the prompt only on success |
| SerialMonitor.Monitor.CatFile | libs/serial_monitor.py:51-57 | `_cat` runs its three-command script and catches any error, showing that the file cannot be opened |
| SerialMonitor.Monitor.Send | libs/serial_monitor.py:186-204 | the new state is `Sent` of the old one, and the invariant holds |
| SerialMonitor.Monitor.WriteLines | libs/serial_monitor.py:238-242 | the `readline` loop sends one write-line command per line that is not a comment, in file order, and stops at the first error; after the last line of a file that does not decode, it fails with the decoding error |
| SerialMonitor.Monitor.OpenTarget | libs/serial_monitor.py:236-237 | the first two commands of the upload, stopping at the first error |
| SerialMonitor.Monitor.CloseTarget | libs/serial_monitor.py:243-244 | the last two commands of the upload, stopping at the first error |
| SerialMonitor.Monitor.UploadScript | libs/serial_monitor.py:234-248 | the body of the upload's `try` is `UploadRun`: the whole upload script, ending at the first error or at the decoding error before the flush |
| SerialMonitor.Monitor.UploadTask | libs/serial_monitor.py:229-250 | the new state is `Uploaded` of the old one, and the invariant holds |
| SerialMonitor.LineSplits | libs/serial_monitor.py:238-242 | how the upload script grows by each line read |
| SerialMonitor.StepsGrow | libs/serial_monitor.py:239-242 | a comment line adds no command; any other line adds exactly its write-line command |
| Text.Basename | libs/serial_monitor.py:233 | posixpath's base name contains no `/`, ends the path, and follows a `/` or starts the path |
| Text.RStrip | libs/gm_panel.py:28 | `rstrip` never lengthens a string |
| Text.RStripShape | libs/gm_panel.py:28 | `rstrip` removes exactly the trailing run of whitespace |
| GmManager.ParseHex | libs/gm_manager.py:189 | `int(s, 0)` reads back every `0x`-prefixed lower-case hex numeral |
| GmManager.ParseDecimal | libs/gm_manager.py:189 | `int(s, 0)` reads back every decimal numeral |
| GmManager.ParseInt | libs/gm_manager.py:189 | defines `int(s, 0)` with surrounding whitespace, one sign, the `0x`/`0o`/`0b` prefixes in either case, and a leading zero on a decimal only when all its digits are zero; `ParseHex`, `ParseDecimal` and `NotNumbers` state it |
| GmManager.HexDigits | libs/gm_manager.py:189 | the digits `%x` writes are hex digits, holding no whitespace or sign, whose value is the number: the fact behind `ParseHex` |
| GmManager.DecimalDigits | libs/gm_manager.py:189 | the digits `%d` writes are decimal digits, holding no whitespace or sign, whose value is the number: the fact behind `ParseDecimal` |
| GmManager.DecimalLeads | libs/gm_manager.py:189 | `%d` starts with `0` only for zero, which it writes as `0`, so `int(s, 0)` never meets a refused leading zero |
| GmManager.BootloaderAddress | libs/gm_manager.py:130-134 | `'0x1000'` is 4096 |
| GmManager.ApplicationAddress | libs/gm_manager.py:130-134 | `'0x10000'` is 65536 |
| GmManager.PartitionsAddress | libs/gm_manager.py:130-134 | `'0x8000'` is 32768 |
| GmManager.NotNumbers | libs/gm_manager.py:188-191 | `'boot'` and `'010'` are not numbers |
| GmManager.ClearLowBitsIs | libs/gm_manager.py:207 | clearing the low k bits of x is `x - x % 2^k`, also for negative x |
| GmManager.SectorBounds | libs/gm_manager.py:207-209 | `sector_start` is a multiple of the sector size no larger than the address and less than one sector below it; `sector_end + 1` is a multiple of the sector size at least address + size and less than one sector above it |
| GmManager.EndsBelow | libs/gm_manager.py:208-210 | a file's sector range ends below a sector-aligned limit exactly when the file does |
| GmManager.InsertKeeps | libs/gm_manager.py:203 | inserting a pair adds that pair and keeps the others |
| GmManager.InsertSorts | libs/gm_manager.py:203 | inserting into pairs in address order keeps them in address order |
| GmManager.SortByAddress | libs/gm_manager.py:203 | defines `sorted(pairs)` on pairs with distinct addresses as an insertion sort by address; `SortByAddressSorts` states it |
| GmManager.SortByAddressSorts | libs/gm_manager.py:203 | `sorted(pairs)` is a permutation of the pairs in ascending address order |
| GmManager.PairsFromOk | libs/gm_manager.py:186-199 | the pairing loop succeeds exactly when every address is a number followed by the name of a file that opens |
| GmManager.PairsFromOrder | libs/gm_manager.py:186-199 | on success there is one pair per two values, in input order, each holding the parsed address and its file |
| GmManager.PairsFromErrors | libs/gm_manager.py:187-198 | the loop raises only "must be a number", "must be pairs" and the open error; "must be pairs" means the list has odd length |
| GmManager.PairsFrom | libs/gm_manager.py:186-199 | defines the pairing loop two values at a time; `PairsFromOk`, `PairsFromOrder` and `PairsFromErrors` state it |
| GmManager.FitsShift | libs/gm_manager.py:202-214 | the running `end` a pair is compared against is the previous pair's `sector_end` |
| GmManager.FirstOverlapIs | libs/gm_manager.py:202-214 | the overlap loop raises exactly when some sorted pair starts below its bound, and it raises on the first such pair |
| GmManager.AcceptedDisjoint | libs/gm_manager.py:207-214 | with sectors of two bytes or more, accepted pairs have sector ranges that each end before any later one starts |
| GmManager.CheckedAccepts | libs/gm_manager.py:201-215 | the sorted check accepts exactly when no two addresses are equal and every sorted pair starts at or above its bound; it then keeps the pairs in input order; it refuses only with a sort failure or an overlap |
| GmManager.CheckedOverlap | libs/gm_manager.py:210-213 | an overlap is reported with the address and name of the first sorted pair that starts below its bound |
| GmManager.Checked | libs/gm_manager.py:201-214 | defines the refusal of equal addresses by `sorted`, then the overlap loop over the sorted pairs; `CheckedAccepts` and `CheckedOverlap` state it |
| GmManager.AcceptedRanges | libs/gm_manager.py:201-215 | accepted pairs, sorted, are a permutation in ascending order whose sector ranges do not overlap and start at or above 0 |
| GmManager.UploadArgsAccepted | libs/gm_manager.py:184-215 | `FirmwareUploadArgs` succeeds exactly when the pairing succeeds and the pairs pass the sorted check; `addr_filename` is then the pairs in input order |
| GmManager.UploadArgsRefused | libs/gm_manager.py:184-215 | a sort failure or an overlap comes from the sorted check on the paired values; any other refusal is the pairing loop's error |
| GmManager.UploadArgsOf | libs/gm_manager.py:184-215 | defines `FirmwareUploadArgs(port, values)`: the pairing, then the sorted check; `UploadArgsAccepted` and `UploadArgsRefused` state it |
| GmManager.ReadPairs | libs/gm_manager.py:186-199 | the loop over the values returns what `PairsFrom` describes |
| GmManager.CheckPairs | libs/gm_manager.py:202-214 | the loop with its running `end` returns what `Checked` describes |
| GmManager.BuildUploadArgs | libs/gm_manager.py:184-215 | the constructor returns what `UploadArgsOf` describes |
| GmManager.FirmwarePairs | libs/gm_manager.py:130-134 | the firmware table pairs as bootloader at 0x1000, application at 0x10000 and partitions at 0x8000 |
| GmManager.FirmwareLayoutAccepted | libs/gm_manager.py:129-135 | with 4 KiB sectors the firmware table is accepted exactly when the bootloader is at most 0x7000 bytes and the partition table at most 0x8000 bytes |
| GmManager.FirmwareTableChecked | libs/gm_manager.py:201-214 | the sorted check of the firmware table accepts exactly under those two size bounds |
| GmManager.FirmwareTableFits | libs/gm_manager.py:207-214 | in address order, the bootloader's range fits below 0x8000 and the partition table's below 0x10000 exactly under those bounds |
| GmManager.FirmwareTableSorted | libs/gm_manager.py:203 | the firmware table sorts to bootloader, partitions, application |
| GmManager.FirmwareStarts | libs/gm_manager.py:207 | the three firmware addresses are sector-aligned |
| GmManager.FirmwareNameIs | libs/gm_manager.py:106-107 | the archive name is the version with every newline removed, followed by `.zip` |
| GmManager.FirmwareName | libs/gm_manager.py:106-107 | defines the archive name; `FirmwareNameIs` states it |
| GmManager.FirmwareUrlWithoutPattern | libs/gm_manager.py:110 | an address without `version` is used unchanged |
| GmManager.FirmwareUrlSubstitutes | libs/gm_manager.py:110 | in an address with one `version`, exactly that part is replaced by the archive name |
| GmManager.FirmwareUrl | libs/gm_manager.py:110 | defines the download address by replacing `version`; `FirmwareUrlWithoutPattern` and `FirmwareUrlSubstitutes` state it |
| GmManager.DownloadCallsBackOnSuccess | libs/gm_manager.py:100-125 | `on_done` is called exactly when one was given, the version was fetched, the archive was on disk or was fetched and stored, and it unpacked |
| GmManager.DownloadStopsOnError | libs/gm_manager.py:102-119 | a failed fetch or store is the last line written and ends the task before unpacking, without storing anything or calling back; otherwise the last line is the unpack notice |
| GmManager.DownloadFetches | libs/gm_manager.py:104-115 | the archive is downloaded exactly when the version is known and its archive is not on disk; it comes from the substituted address and is stored under its own name |
| GmManager.DownloadTask | libs/gm_manager.py:100-127 | defines `_firmware_download_task` over its fetches, the archives on disk, the store and the unpack; `DownloadCallsBackOnSuccess`, `DownloadStopsOnError` and `DownloadFetches` state it |
| GmPanel.MatchingAppend | libs/gm_panel.py:49-54 | the prefix filter distributes over concatenation, so it keeps push order |
| GmPanel.MatchingCounts | libs/gm_panel.py:49-54 | each command is kept as often as it was stored when it starts with the prefix, and never otherwise |
| GmPanel.MatchingMembers | libs/gm_panel.py:49-54 | the matches are exactly the stored commands that start with the prefix |
| GmPanel.MatchingEverything | libs/gm_panel.py:49-54 | the empty prefix matches the whole history |
| GmPanel.Matching | libs/gm_panel.py:49-54 | defines `match`: the stored commands that start with the prefix, in push order; the four lemmas above state it |
| GmPanel.HistoryMatchList.constructor | libs/gm_panel.py:4-7 | a new list has the cursor one past the last command |
| GmPanel.HistoryMatchList.Current | libs/gm_panel.py:9-12 | empty list: `""`; otherwise the command under the cursor, and the index error exactly when the cursor is one past the end |
| GmPanel.HistoryMatchList.Prev | libs/gm_panel.py:14-16 | the cursor moves back one, never below 0, and lands on a command; the first step back from a new list gives the last command |
| GmPanel.HistoryMatchList.Next | libs/gm_panel.py:18-20 | the cursor moves forward one, never above `len - 1`, and lands on a command |
| GmPanel.PushedIs | libs/gm_panel.py:27-32 | `push` stores the command without trailing whitespace once, unless that is empty or repeats the last command; it then records it as the last |
| GmPanel.PushKeeps | libs/gm_panel.py:27-32 | pushing keeps the history well kept: `_last` is the newest command, all commands are stripped and non-empty, and no command repeats the one before |
| GmPanel.Pushed | libs/gm_panel.py:27-32 | defines `push` on `(_last, stack)`; `PushedIs` and `PushKeeps` state it |
| GmPanel.MemHistory.constructor | libs/gm_panel.py:42-44 | a new history is empty and has no last command |
| GmPanel.MemHistory.Append | libs/gm_panel.py:46-47 | the command is appended to the stack |
| GmPanel.MemHistory.Push | libs/gm_panel.py:27-32 | the new last command and stack are `Pushed` of the old ones, and the history stays well kept |
| GmPanel.MemHistory.Match | libs/gm_panel.py:49-54 | a new match list of the commands that start with the prefix, its cursor one past the end, with the stack unchanged |
| GmPanel.DeletionAllowedIff | libs/gm_panel.py:156-168 | a deletion is allowed exactly when nothing it would erase lies before the end of the output |
| GmPanel.DeletionAllowed | libs/gm_panel.py:156-168 | defines the verdict of `allow_deletion`: no selection is an empty cursor at the end of the output, and none begins or ends before it; `Panel.AllowDeletion` proves the loop computes it |
| GmPanel.Panel.constructor | libs/gm_panel.py:74-77 | a new panel has an empty history and no match list |
| GmPanel.Panel.PushHistory | libs/gm_panel.py:124-126 | the history is pushed and the match list is forgotten |
| GmPanel.Panel.EnsureHistoryMatch | libs/gm_panel.py:128-135 | the match list is kept while the input is its current command; otherwise it is replaced by a new list for the input; afterwards a list always exists |
| GmPanel.Panel.PreviousCommand | libs/gm_panel.py:96-112 | while the input is the current command of the match list, the same list is kept and its cursor steps back one, never below 0; otherwise a new list of the commands that start with the input replaces it, its cursor on the newest match; the input afterwards is the command under the cursor, or the input unchanged when nothing matches; the output end is unchanged |
| GmPanel.Panel.NextCommand | libs/gm_panel.py:102-112 | while the input is the current command of the match list, the same list is kept and its cursor steps forward one, never above `len - 1`; otherwise a new list of the commands that start with the input replaces it, its cursor on the newest match; the input afterwards is the command under the cursor, or the input unchanged when nothing matches; the output end is unchanged |
| GmPanel.Panel.AllowDeletion | libs/gm_panel.py:156-168 | the loop with early returns is false exactly when some selection is an empty cursor at the end of the output, or begins or ends before it |

## Left out

- Threads: the reader thread, `join(2)`, `threading.Lock`, `time.sleep` and `cancel_read` are not modelled. A thread is its liveness flag, and operations do not interleave.
- SerialMonitor.SerialLink.Write: writes never raise here. pyserial's `write` can raise `SerialException` (`libs/serial_monitor.py:210`, `202`, `204`), and the model does not produce that error. So `SerialProtocol.ExchangeVerdict`'s success case, `SerialProtocol.ScriptSends` and `SerialMonitor.SendPassThrough` assume writes that succeed. In the code, a failing write in `_command` would be shown by the handler of the built-in verbs or of the upload, and one in `send`'s pass-through would escape `send`.
- pyserial: `setDTR`/`setRTS`, `reset_dev`, `in_waiting`, `flushInput` and the read size are left out. A read returns the next supplied chunk. The flush before each command is not modelled, so no pending input is discarded.
- The message and upload queues (`task_queue`) are not part of this model. The message queue is the list of texts put on it. `upload` runs the task directly.
- UTF-8 encoding and decoding with `'replace'` are the identity: bytes and text share one alphabet.
- The text of an `open` or `read` error comes from pyserial or the OS and is a parameter. The model gives no text of its own to `OpenFailed` and `Unorderable`.
- esptool is not part of this model: chip detection, the stub, baud changes, `write_flash` and the reset. Of `_firmware_upload_task`, only its firmware table and the argument check are modelled.
- The network download, the zip extraction and the file system are parameters of `DownloadTask`. A failed unpack is modelled as unpacking without calling back. The handler's broken `str(e)` at `libs/gm_manager.py:127` is not modelled.
- `int(s, 0)`: underscores between digits and non-ASCII digits are not accepted.
- Python 3 cannot compare two file objects, so `sorted(pairs)` raises `TypeError` when two addresses are equal. This is the `Unorderable` refusal, without Python's message.
- `GmManager` menus, `comports`, `panel_show`, `open` and `send_to_dev`, `gamemcu.py`, `__init__.py` and `libs/sys_path.py` are not part of this model: they are Sublime and file-system glue.
- GmPanel view operations: `write`, `enter`, `clear`, `escape`, `show`, `replace_current_input`'s editing, and the regions and selections read from the view. The user's input and the selections are parameters.
- SerialMonitor.Monitor.Run: the reader loop runs for at most a given number of passes (`ReadFor`). It does not model a reader that runs forever.
- GmPanel.HistoryMatchList.Current: an index past the end is the `None` result instead of an `IndexError`. Python's negative indexing is not needed, because the cursor stays in `[-1, len]` and -1 occurs only for an empty list.
- GmManager.AcceptedDisjoint and GmManager.AcceptedRanges require sectors of at least two bytes. With a sector size of 1, the check accepts a pair that starts on the address where the previous one ends, so the ranges may share it.
- Text.Basename and Text.JoinPath model posixpath only. On Windows, `os.path` is ntpath, which also splits at `\` and after a drive such as `C:`.
- Text.IsWordChar follows Unicode 15.0.0, the version of Python 3.12, and not the older tables of the 3.3 and 3.8 plugin hosts (Unicode 6.1.0 and 12.1.0). A letter or digit that a later Unicode version added is a word character here but not for those interpreters.
- Which lines `readline` delivers before a decoding error depends on how `codecs` reads the file in chunks. The model takes the delivered text as part of `FileText`.
- pyserial's port setter closes and reopens an open port. The model does not do this, because with the link closed after a failed read it is never open while disconnected. `ReadFaultStrandsAsWritten` states the code's stuck state for `start` and `stop` only.
- GmManager.FirmwareLayoutAccepted states the firmware table for 4 KiB sectors (`Pow2(sectorBits) == 0x1000`), the size esptool uses, and not for other sector sizes.

## Findings

| source | as written | input that shows it | evidently intended | confidence | as-written member | corrected member |
|---|---|---|---|---|---|---|
| libs/serial_monitor.py:169-174 | a failed read clears `_is_ready` and `_port` but leaves `ser` open, so `stop` does nothing and the next `open` raises "Port is already open." with no retry | a connected monitor whose read raises, then `start()` | close the link when the reader gives up, so that `start` can open it again | not executed | SerialMonitor.ReaderStepAsWritten, SerialMonitor.ReadFaultStrandsAsWritten | SerialMonitor.ReaderStep, SerialMonitor.ReadFaultAllowsReconnect |
