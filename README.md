# Ki-Fi receiver: at-most-once message intake and the line logger

This project models the two receiving scripts of Ki-Fi, a relay for short text messages
over a LoRa radio mesh, and proves their delivery and logging properties in Dafny.

- `receiver/receiver.py` registers `on_message` as the radio library's receive callback.
  The callback keeps the module-level set `received_messages` of packet ids. It drops
  a packet whose id is already in the set. Otherwise it adds the id *first*, then builds
  the row `{timestamp, text, from, to}` with the fallbacks `''`, `'unknown'` and
  `'broadcast'`, and hands it to `save_to_excel`. That function is meant to store the
  existing rows followed by the new one (see "## Findings"), and it swallows its own errors. Delivery is therefore at most once
  per id, not exactly once.
- `receiver/log_receiver.py` reads lines from a serial port. It strips each line and skips
  it if it is blank. Otherwise it appends `[timestamp] line` and a line break to
  `received_messages.txt`, opened in append mode, and flushes after every entry.

Modules:

- `Wrappers` (wrappers.dfy): `Option`, for a key that may be absent or a value that may be `None`.
- `Text` (text.dfy): Python's `str.isspace` and `str.strip()`. `Strip` is fully characterised:
  it removes only whitespace, leaves a trimmed result, and the decomposition is unique.
- `Packets` (packets.dfy): the packet dictionary, as far as the callback reads it, and the
  projection `Project` to a spreadsheet row.
- `Receiver` (receiver.dfy): the class `Receiver`, whose fields `seen` and `records` hold
  `received_messages` and the spreadsheet rows, and whose methods are `OnMessage` and
  `SaveToExcel`. Beside it are the functions `Deliver` (one callback) and `Run` (a sequence
  of callbacks) that specify the methods, and the lemmas about them.
- `LogReceiver` (log_receiver.dfy): the class `LogFile`, whose fields are `written` (all
  text handed to `write`) and `durable` (all text flushed), and the methods `HandleLine`
  (the loop body) and `LogLines` (the loop). Beside them are `LogText`, the specification
  of what the loop writes, and a reader `ParseLog` of the log format, the inverse used to
  state that the log holds exactly the stripped non-blank lines, in order.

Inputs that come from the environment are parameters: the formatted local time, the raw
line read from the port, and whether the spreadsheet write succeeds.

## Model

| member | source | states |
|---|---|---|
| `Packets.Project` | receiver/receiver.py:22-27 | the row has the given timestamp; `text` is `decoded.text` when present and `''` when `decoded` or `text` is missing; `from` falls back to `'unknown'` and `to` to `'broadcast'`; no row exists exactly when `decoded` is present but not a dictionary (the `.get` raises) |
| `Receiver.Appended` | receiver/receiver.py:64-66 | the intended save: when the combined rows reach the file, the existing rows stay a prefix and the new rows follow in order; a save that writes nothing, its exception caught, leaves the rows unchanged |
| `Receiver.KeyOf` | receiver/receiver.py:15-19 | the dedup key is `packet.get('id')`: it is `None` exactly when the packet has no id, so all id-less packets share one key |
| `Receiver.SaveAsWrittenLosesRows` | receiver/receiver.py:62-66 | with a writer that empties its target when created, the existence test always holds, reading the emptied file raises, and the saved workbook has no rows: the earlier rows are not kept as a prefix |
| `Receiver.Deliver` | receiver/receiver.py:15-29 | a packet whose id was seen leaves the state unchanged; otherwise the id joins the set; rows only grow at the end and by at most one; one row is added iff the id is new, the row can be built and the save succeeds, and that row is the projection of the packet |
| `Receiver.Run` | receiver/receiver.py:11-29 | callbacks run one after another; over any run the seen set and the stored rows only grow (exact growth in `RunGrows`, per-id behaviour in `AtMostOnce`) |
| `Receiver.RunSnoc` | receiver/receiver.py:11-29 | a run of callbacks followed by one more callback is that callback applied to the state after the run |
| `Receiver.RunGrows` | receiver/receiver.py:9-19 | over any sequence of callbacks the seen set becomes exactly the old set plus every delivered id (nothing is removed), and the old rows stay a prefix |
| `Receiver.DeliverTwice` | receiver/receiver.py:15-19 | delivering a second packet with the same id, whatever happened to the first save, changes nothing |
| `Receiver.AtMostOnce` | receiver/receiver.py:15-19 | within a run, a delivery whose id occurred earlier leaves the state exactly as it was |
| `Receiver.RowsPerNewKey` | receiver/receiver.py:15-29 | a run stores no more rows than the number of ids it newly marks as seen |
| `Receiver.RunConstant` | receiver/receiver.py:15-16 | deliveries whose ids are all already seen change nothing |
| `Receiver.FailedSaveIsFinal` | receiver/receiver.py:19-29 | a new packet whose save fails still has its id marked, and every redelivery of it is dropped, so its row is never stored |
| `Receiver.DuplicateExample` | receiver/receiver.py:15-29 | ids 1001, 1001, 1002 delivered in that order store exactly two rows, the one for 1001 and then the one for 1002 |
| `Receiver.MissingIdsCollide` | receiver/receiver.py:15-19 | two packets without an id share the key `None`, so only the first is stored |
| `Receiver.Receiver.constructor` | receiver/receiver.py:9 | `received_messages` starts empty; the spreadsheet keeps the rows an earlier run left |
| `Receiver.Receiver.SaveToExcel` | receiver/receiver.py:55-66 | the stored rows become `Appended` of the old rows and the new ones; the seen set is untouched |
| `Receiver.Receiver.OnMessage` | receiver/receiver.py:11-32 | the new seen set and rows are `Deliver` of the old ones, so every lemma about `Deliver` and `Run` applies to the method |
| `Text.WhitespaceTable` | receiver/log_receiver.py:22 | `IsSpace` follows Python's whitespace table: ASCII whitespace, U+0085, U+00A0, the line and paragraph separators and U+3000 are whitespace; the zero-width space U+200B, U+FEFF and letters are not |
| `Text.LeadingSpaces` | receiver/log_receiver.py:22 | the count of leading whitespace characters: all of them are whitespace and the next character is not |
| `Text.TrailingSpaces` | receiver/log_receiver.py:22 | the count of trailing whitespace characters: all of them are whitespace and the character before them is not |
| `Text.Strip` | receiver/log_receiver.py:22 | the stripped line has no whitespace at either end, and it is empty exactly when the raw line is all whitespace |
| `Text.StripPosition` | receiver/log_receiver.py:22 | the stripped line occurs in the raw line with only whitespace before and after it |
| `Text.StripUnique` | receiver/log_receiver.py:22 | a trimmed string with whitespace around it strips to exactly that string, so strip removes whitespace and nothing else |
| `Text.StripIdempotent` | receiver/log_receiver.py:22 | stripping twice is stripping once |
| `LogReceiver.FormatEntry` | receiver/log_receiver.py:26 | an entry opens with `[`, ends with its line break, is 4 characters longer than timestamp and text, and has no other line break when neither part has one |
| `LogReceiver.LineOutput` | receiver/log_receiver.py:22-26 | a line writes nothing exactly when it is all whitespace; otherwise one entry opening with `[`, ending with its line break, 4 characters longer than timestamp and stripped text (its content is read back by `ParseLogCons`) |
| `LogReceiver.LogText` | receiver/log_receiver.py:20-27 | the loop writes nothing exactly when every line is blank; `LogTextSnoc` orders the output and `LogRoundTrip` reads it back |
| `LogReceiver.Kept` | receiver/log_receiver.py:22-26 | at most one entry per line read; every logged text is non-empty with no whitespace at either end |
| `LogReceiver.StripReadline` | receiver/log_receiver.py:22 | a line as `readline` returns it has no line break left after stripping |
| `LogReceiver.EntryRoundTrip` | receiver/log_receiver.py:26 | an entry written as `[ts] line` reads back as `ts` and `line` when `ts` has no `]` |
| `LogReceiver.ParseLogCons` | receiver/log_receiver.py:26 | a log that starts with a well-formed entry reads back as that entry followed by the rest |
| `LogReceiver.LogTextSnoc` | receiver/log_receiver.py:20-26 | handling one more line appends that line's output after everything written before |
| `LogReceiver.LogRoundTrip` | receiver/log_receiver.py:20-27 | everything the loop writes reads back as exactly one entry per non-blank line, the stripped text with its timestamp, in arrival order |
| `LogReceiver.LogFile.Open` | receiver/log_receiver.py:14 | opening in append mode keeps the existing contents, with nothing pending |
| `LogReceiver.LogFile.Write` | receiver/log_receiver.py:26 | the text is appended to what was written; the file contents may grow (a write larger than the buffer reaches the file) but never beyond what was written |
| `LogReceiver.LogFile.Flush` | receiver/log_receiver.py:27 | the file contents become everything written so far |
| `LogReceiver.HandleLine` | receiver/log_receiver.py:21-28 | a blank line writes nothing; otherwise exactly its entry is appended; afterwards the file holds everything written |
| `LogReceiver.LogLines` | receiver/log_receiver.py:19-28 | the earlier log stays as a prefix, followed by the output of every line in arrival order, and the file holds everything written after every entry |

## Left out

- Connecting to the radio and configuring channel name, pre-shared key and modem preset
  (receiver/receiver.py:34-53). These are calls into the radio library. Encryption is done
  by the radio firmware with that key; the scripts contain no key derivation or encryption.
- Registering the callback (receiver/receiver.py:49), the `while True: sleep` keep-alive,
  Ctrl+C handling and closing the interface or the serial port (receiver/receiver.py:105-124,
  receiver/log_receiver.py:29-33).
  These are event and process plumbing.
- The `print` calls in both scripts. They are console output only.
- The spreadsheet's presentation: header format, column widths and cell formats
  (receiver/receiver.py:68-99). The type conversions that a write-then-read through the
  spreadsheet library may apply to cell values are also left out. The stored rows are
  modelled as the records themselves.
- `Receiver.Appended`: `ok` means that the combined rows reached the file. That includes an
  error in the formatting code after `df.to_excel` (lines 70-99): leaving the `with` block
  still saves the rows, though line 103 reports an error. An outcome in which earlier rows
  are lost is excluded by assumption; "## Findings" records why the code as written can
  lose them, and `Appended` is the intended behaviour the rest of the model uses.
- `Receiver.Receiver.SaveToExcel`: the outcome of the write is a parameter. A failed write
  is modelled as leaving the stored rows unchanged. The script checks whether the file
  exists only after the spreadsheet writer for that same file has been created (lines 62-64),
  and what the writer does to an existing file at that point depends on the spreadsheet
  library. That library is not part of this model.
- Packet values of other shapes than modelled: a `text`, `from` or `to` value that is not a
  string or node number, and an unhashable `id`, whose membership test raises before the
  id is marked.
- Reading the serial port (`in_waiting`, `readline`), UTF-8 decoding errors and the clock.
  The decoded line and the formatted timestamp are inputs of each loop step.
- The log file is modelled as characters. The text-mode encoding of `open(..., 'a')` and its
  newline translation on writing (log_receiver.py:14) are not modelled.
  `LogReceiver.LogRoundTrip` assumes a timestamp without `]` or line break, which the
  `%Y-%m-%d %H:%M:%S` format guarantees.
- receiver/process_data.py (CSV-to-spreadsheet conversion) and sender/sender.py (sending
  through the radio library and its interactive input loop). Both are library calls and I/O.
- The seen set is unbounded and in memory only, as in the code. There is no eviction
  window, and concurrency is not modelled: the callbacks run one after another. A
  restart is the constructor again, with an empty set.
- A node directory resolving names, `"Unknown"` as the sender fallback, and a persistence
  failure that stops the process are not in the code. The code stores the raw `from`/`to`
  with the fallbacks `'unknown'`/`'broadcast'` and swallows save errors, and the model
  follows the code.

## Findings

| source | as written | input that shows it | evidently intended | confidence | as-written member | corrected member |
|---|---|---|---|---|---|---|
| receiver/receiver.py:62-66 | the spreadsheet writer for `filename` is created before the test `os.path.exists(filename)`; a writer that opens its target for writing on creation empties the file, so the test always holds, `read_excel` on the emptied file raises, the error is swallowed and the workbook saved on leaving the block holds no rows | an existing spreadsheet with one row and one new message: afterwards the file holds no rows | existing rows stay as a prefix and the new rows follow | not executed; rests on the spreadsheet library opening the target when the writer is created | `Receiver.SaveAsWrittenLosesRows` | `Receiver.Appended` |
