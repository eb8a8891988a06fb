# SimpleLog and the launcher's command line, in Dafny

This project models two parts of the RunHiddenConsole repository:

- **`SimpleLog`**, the static, queue-based logging engine. The model covers:
  - the bounded entry queue and the lifecycle flags of the background writer;
  - one turn of the writer, with its retry discipline and its event-log de-duplication;
  - the three `Log` overloads and `Check`;
  - the fault-tree serialiser `GetExceptionXElement` and the plain-text form `ConvertXmlToPlainText`;
  - file-name assembly, the defaulting properties, `SetLogDir` and `SetLogFile`.
- **`GetArguments`** of `Program.cs`. It strips the launcher's own name from the process command line, then splits off the target's path, quoted or not.

The engine's static fields become the fields of one `class SimpleLog`. The methods that change them carry `modifies` clauses and state the whole new state.

Each method is proved against pure functions, and what the source promises is proved as lemmas about those functions:

| Function(s) | Used for |
|---|---|
| `Lifecycles.Start`, `Stop`, `EnqueueStep` | the flags |
| `Logging.AfterEnqueue` | the queue |
| `FileWrites.AttemptError`, `AttemptAppends` | a write |
| `FileWrites.Forwarded` | what is forwarded to the event log |
| `Settings.GetFileName`, `Logging.Updated`, `Logging.DirectoryChange` | the configuration |
| `TextLines.PlainText` | the text line |

The serialiser, the file name and the command-line split are pure functions, as in the source.

Modules:

- `Wrappers`: `Option`, standing for a nullable value.
- `Text`: the .NET string primitives the core uses (`Trim`, ordinal `IndexOf`, `StartsWith`, `Replace("\r\n", " ")`), plus invariant-culture decimal and `X8` hex rendering with their parsers.
- `XmlTree`: element trees with `Value`, `DescendantsAndSelf`, `Elements(name)` and `Attribute(name)`.
- `Faults`: the exception datatype and `GetExceptionXElement`.
- `TextLines`: `ConvertXmlToPlainText`.
- `Settings`: the configuration, its getters and setters, and `GetFileName`.
- `FileWrites`: the outcome of one write attempt, and the forwarding rule.
- `Lifecycles`: the flag state machine.
- `Logging`: the `SimpleLog` class.
- `CommandLine`: `GetArguments`.

The outside world enters as parameters:

- **The clock and `DateTime.ToString(pattern)`** enter as a function from pattern to text (`Settings.Clock`).
- **What a write attempt meets** enters as a `FileWrites.WriteAttempt`: success, an exception thrown by the stream, or a lock timeout.
- **The directory probe of `SetLogDir`** enters as a `Logging.FileSystem`, together with the assembly name and stack trace the runtime records when `SetLogDir` throws.
- **What `GetCaller` returns and the managed thread id** are plain arguments.
- **The polls `Flush` observes** enter as a sequence of `Logging.Poll`.

One place where the repository's prose and its code disagree:

- **A failed `SetLogDir`.** The prose says it keeps the previous directory. The code assigns the new `DirectoryInfo` before it checks that the directory exists (SimpleLog.cs:491-502). The model follows the code, as `Logging.MissingDirectoryStillReplaces` states.

## Model

| member | source | states |
|---|---|---|
| Logging.AfterEnqueue | SimpleLog.cs:1041-1048 | the queue keeps its earlier entries in order; the entry is appended at the back exactly when fewer than 10000 wait; the queue never grows beyond 10000 |
| Logging.SimpleLog.Enqueue | SimpleLog.cs:1027-1049 | after a stop the queue is unchanged; otherwise the queue is `AfterEnqueue` of the old one; logging is started first unless `StartExplicitly`; the flags stay consistent |
| Logging.SimpleLog.Peek | SimpleLog.cs:1055-1061 | returns null exactly for the empty queue, else the front entry; the queue is not changed |
| Logging.SimpleLog.Dequeue | SimpleLog.cs:1066-1075 | removes exactly the front entry; does nothing on an empty queue |
| Logging.SimpleLog.ClearQueue | SimpleLog.cs:993-999 | the queue becomes empty and no flag changes |
| Logging.SimpleLog.constructor | SimpleLog.cs:133-193 | an empty queue, no task, no stop flag, no last exception, and the default configuration in the current directory |
| Lifecycles.Start | SimpleLog.cs:893-919 | a no-op when running or when either stop flag is set; otherwise the background task starts; keeps the flags consistent |
| Lifecycles.Stop | SimpleLog.cs:928-959 | always sets the enqueue stop; a running task is asked to stop and dropped; afterwards logging is stopped |
| Lifecycles.EnqueueStep | SimpleLog.cs:1030-1039 | the flags after `Enqueue`: unchanged after a stop or with `StartExplicitly`, otherwise `Start` |
| Lifecycles.RunConsistent | SimpleLog.cs:893-959 | every sequence of start, stop and enqueue calls keeps the flags consistent (a running task has no stop flag set; a stop request comes with the enqueue stop) |
| Lifecycles.StoppedStaysStopped | SimpleLog.cs:893-1049 | once stopped, no later call starts logging or lets an entry into the queue |
| Lifecycles.StopIsFinal | SimpleLog.cs:893-1049 | whatever came before a `StopLogging` and whatever follows it, logging is off and `Enqueue` refuses entries |
| Lifecycles.RunAppend | SimpleLog.cs:893-959 | running two sequences of calls one after the other is running their concatenation |
| Lifecycles.FirstEnqueueStarts | SimpleLog.cs:1030-1039 | from the initial state, after any calls that include no `StopLogging`, an auto-starting `Enqueue` leaves the background task started |
| Logging.SimpleLog.StartLogging | SimpleLog.cs:893-919 | the flags become `Start` of the old ones; the last exception is cleared exactly when the background task is started |
| Logging.SimpleLog.StopLogging | SimpleLog.cs:928-959 | the flags become `Stop` of the old ones; it pauses only when `flush` is asked and the background task runs, and then exactly as `Flush` does |
| Logging.SimpleLog.Flush | SimpleLog.cs:964-988 | without a task it does not pause; otherwise it runs to the first poll at which the queue is empty or a pause changed nothing, and pauses once per turn entered |
| FileWrites.AttemptError | SimpleLog.cs:1179-1253 | an attempt returns null exactly when the entry was written, which needs the date pattern to render |
| FileWrites.AttemptErrorCases | SimpleLog.cs:1215-1252 | with a renderable date pattern, a lock timeout returns the timeout exception naming the file, and an I/O failure returns the thrown exception, message kept, with `Filename` set in its data; with a pattern that throws, a lock timeout returns the formatting exception, and any other attempt returns it with only `Username` added |
| FileWrites.LockTimeoutError | SimpleLog.cs:1244-1247 | the timeout message names the file and the 5-second wait |
| FileWrites.DecoratedEntries | SimpleLog.cs:1217-1234 | the returned exception is the thrown one with only its data changed: `Filename` is the file name, and `Username` is the user when known |
| FileWrites.SetEntryFinds | SimpleLog.cs:1217-1234 | after `Data[key] = value`, the key finds the new value and every other key finds what it found before; an existing pair is replaced in place, a new one appended |
| FileWrites.FindEntry | SimpleLog.cs:1219 | a found pair is in the data with that key; none is found exactly when no pair has that key |
| FileWrites.AttemptAppends | SimpleLog.cs:1191-1213 | a successful attempt appends exactly one line, to the file named at that instant, in text form when `WriteText` is set and as XML otherwise; a failed one appends nothing |
| Logging.SimpleLog.WriteLogEntryToFile | SimpleLog.cs:1179-1253 | returns `AttemptError` and appends `AttemptAppends`; with `WriteText` the line is the plain-text form |
| Logging.SimpleLog.WriteOwnExceptionToEventLog | SimpleLog.cs:1130-1136 | the exception is forwarded to the event log exactly when it is not null and its message differs from that of the last recorded exception |
| Logging.SimpleLog.TryWrite | SimpleLog.cs:1102-1104 | one try: returns the attempt's result, records it as the last exception, and extends the forwarded exceptions by the de-duplication rule |
| Logging.SimpleLog.TryEntry | SimpleLog.cs:1099-1114 | 1 to 10 tries; every try before the last failed; it retries only while at most 1000 entries wait; it stops early only on success or backlog; the last exception is the last try's result; the file gains that try's line; the event log gains `Forwarded` of the tries' results |
| Logging.SimpleLog.WriterIteration | SimpleLog.cs:1085-1118 | with an empty queue nothing changes; otherwise the front entry is tried as in `TryEntry` and then removed whatever the outcome |
| Logging.SimpleLog.WriterTurns | SimpleLog.cs:1085-1118 | successive turns whose first tries all succeed write the front entries in enqueue order, remove exactly them from the queue, forward nothing and leave no last exception |
| Logging.BacklogAppendsInOrder | SimpleLog.cs:1085-1118 | in that case the file gains one line per entry, the i-th line holding the i-th entry, in the file named for its try's instant |
| FileWrites.Errors | SimpleLog.cs:1099-1104 | the results of a run of tries, one per try |
| FileWrites.Forwarded | SimpleLog.cs:1099-1136 | a run of tries forwards at most one exception per try |
| FileWrites.ForwardedSnoc | SimpleLog.cs:1102-1104 | one more try forwards its result exactly when `IsForwarded` holds against the previous result, and that result becomes the last exception |
| FileWrites.ForwardedAreFailures | SimpleLog.cs:1133 | every forwarded exception is the result of one of the tries |
| FileWrites.RepeatedFailuresForwardNothing | SimpleLog.cs:1132-1136 | failures that all repeat the message already recorded forward nothing |
| FileWrites.ForwardedMessagesChange | SimpleLog.cs:1099-1136 | two successive forwarded exceptions never carry the same message, and the last one forwarded carries the last failure's message |
| Logging.LogEntryElement | SimpleLog.cs:715-720 | a `LogEntry` element with four attributes, no text, and the payload as its only child |
| Logging.LogEntryAttributes | SimpleLog.cs:716-719 | `Date`, `Severity`, `Source` and `ThreadId` read back as the formatted time, the severity's name, the caller and the thread id (parsed back from its decimal form) |
| Logging.MessageEntryText | SimpleLog.cs:715-720 | the text line of a message entry is `Date = ...`, `Severity = ...`, `Source = ...`, `ThreadId = ...` and `Message = ...` (line breaks flattened), joined by the separator |
| Logging.SimpleLog.LogElement | SimpleLog.cs:704-740 | a null element changes nothing and returns null; with `useBackgroundTask` and the background task enabled, the entry is enqueued and null returned; otherwise the entry is written at once and the write's result returned; no severity is filtered |
| Logging.SimpleLog.LogMessage | SimpleLog.cs:673-676 | a null or empty message changes nothing and returns null; otherwise a `Message` element is logged as by `LogElement` |
| Logging.SimpleLog.LogException | SimpleLog.cs:568-571 | a null exception changes nothing and returns null; otherwise its serialised tree is logged with severity `Exception` |
| Logging.SimpleLog.Check | SimpleLog.cs:522-526 | bypasses the queue: writes an `Info` message entry directly and returns the write's result; nothing but the file changes |
| Logging.RequestedDirectory | SimpleLog.cs:484-487 | null and "" select the current directory; any other value is used as given |
| Logging.DirectoryChange | SimpleLog.cs:482-511 | a rejected path keeps the directory and returns the error; otherwise the directory is replaced, and the result is null exactly when the directory exists or was created |
| Logging.DirectoryNotFound | SimpleLog.cs:482-507 | the exception `SetLogDir` throws and returns: its message names the directory's full name; as a thrown exception its target site is `SimpleLog.SetLogDir`, so its `Source` value is `PowerShellWindowHost.SimpleLog.SetLogDir`; it carries the runtime's stack trace and can be serialised by `GetExceptionXElement` |
| Logging.MissingDirectoryStillReplaces | SimpleLog.cs:491-502 | a missing directory that is not to be created is reported, yet it has already become the log directory |
| Logging.EmptyDirectoryIsCurrent | SimpleLog.cs:484-487 | null, "" and the current directory's name give the same result |
| Logging.SimpleLog.SetLogDir | SimpleLog.cs:482-511 | the configuration changes in its directory only, as `DirectoryChange` says, and returns its error |
| Logging.Updated | SimpleLog.cs:417-455 | each non-null argument replaces its setting and each null one leaves it; the directory and `BackgroundTaskDisabled` are not touched |
| Logging.UpdatedNothing | SimpleLog.cs:417-455 | with every argument null no setting changes |
| Logging.SimpleLog.DirectoryThenCheck | SimpleLog.cs:457-466 | the directory is set (created if missing) only when given; `Check` runs only when that succeeded and `check` is set; the result is the first error |
| Logging.SimpleLog.SetLogFile | SimpleLog.cs:411-474 | the settings become `Updated` of the old ones, then the directory and the check follow as in `DirectoryThenCheck`; the queue, flags and event log do not change |
| Settings.InitialConfig | SimpleLog.cs:151-193 | the current directory, prefix and suffix "", extension "log", date format "yyyy_MM_dd", separator " \| ", and every switch off |
| Settings.SetPrefix | SimpleLog.cs:231-235 | the getter then reads the value, or "" for null; no other setting changes |
| Settings.SetSuffix | SimpleLog.cs:244-248 | the getter then reads the value, or "" for null; no other setting changes |
| Settings.SetExtension | SimpleLog.cs:257-261 | the getter then reads the value, or "log" for null; no other setting changes |
| Settings.SetDateFormat | SimpleLog.cs:270-274 | the getter then reads the value, or "yyyy_MM_dd" for null; no other setting changes |
| Settings.SetTextSeparator | SimpleLog.cs:318-322 | null is stored as ""; no other setting changes |
| Settings.FileNameLayout | SimpleLog.cs:747-750 | the file name is the directory, `\`, the prefix, the formatted date, the suffix, `.` and the extension, each at its position; a date pattern that throws makes the name throw the same exception |
| Settings.FileNameSeparatesDates | SimpleLog.cs:747-750 | for fixed settings two instants give the same file name exactly when they format alike |
| Settings.DefaultFileName | SimpleLog.cs:747-750 | unconfigured, the file is `{current directory}\{date as yyyy_MM_dd}.log` |
| Faults.NewException | SimpleLog.cs:1246-1247 | a plain exception with the given message and no inner exception |
| Faults.SourceValue | SimpleLog.cs:608 | the target site's "DeclaringType.Method" when the target site and its declaring type are known; otherwise `Source` |
| Faults.GetExceptionXElement | SimpleLog.cs:599-604 | null exactly for a null exception; otherwise an `Exception` element |
| Faults.ExceptionElement | SimpleLog.cs:606-659 | an `Exception` element with at least a `Message` child and a last child |
| Faults.ExceptionElements | SimpleLog.cs:648-651 | one serialised node per aggregate constituent, in order |
| Faults.KindPart | SimpleLog.cs:623-655 | no kind child for a plain exception, one otherwise, named after the kind |
| Faults.TailPart | SimpleLog.cs:657 | the last child is `StackTrace` without an inner exception and an `Exception` node with one |
| Faults.ExceptionAttributes | SimpleLog.cs:606-608 | every node carries exactly the `Type` and `Source` attributes and no text |
| Faults.ExceptionChildren | SimpleLog.cs:609-655 | one `Message`; a `Data` child exactly when there is data; one child for a SQL, COM or aggregate exception and none otherwise; the child count follows |
| Faults.StackTraceOrInner | SimpleLog.cs:657 | a `StackTrace` child exactly when there is no inner exception; otherwise the serialised inner exception, as the last child |
| Faults.ChildrenByName | SimpleLog.cs:606-657 | the children of a given name are read off the node's parts in order |
| Faults.DataEntries | SimpleLog.cs:611-621 | one `Entry` per data pair, in order, with its key and its value (null read as "") |
| Faults.SqlFields | SimpleLog.cs:625-640 | `ErrorNumber` is always present and reads back as the number; `ServerName` and `Procedure` are present exactly when not empty |
| Faults.ComErrorCodeFormat | SimpleLog.cs:641-644 | "0x" and exactly eight upper-case hex digits, which read back as the code cast to unsigned, and cast back give the code |
| Faults.AggregateChildren | SimpleLog.cs:646-654 | one `AggregateException` child holding one serialised node per constituent, in order |
| Faults.AggregateFirstRepeated | SimpleLog.cs:646-657 | a non-empty aggregate's first constituent is serialised twice: inside `AggregateException` and as the inner exception |
| Faults.ChainShape | SimpleLog.cs:657 | a chain of N inner exceptions gives N+1 nested `Exception` nodes with exactly one `StackTrace`, at the innermost node |
| Faults.Innermost | SimpleLog.cs:657 | the end of the inner chain has no inner exception |
| TextLines.ConvertXmlToPlainText | SimpleLog.cs:1282-1314 | the loop builds exactly `PlainText`: the items of the pre-order walk joined by the separator |
| TextLines.AppendElement | SimpleLog.cs:1288-1310 | one element adds its attribute items, or its value item when it has no attributes |
| TextLines.AppendAttributes | SimpleLog.cs:1290-1298 | one `name = value` item per attribute, in order, each after a separator unless the text is empty |
| TextLines.ElementItems | SimpleLog.cs:1288-1310 | an element with attributes contributes one item per attribute; one without contributes one item |
| TextLines.JoinSnoc | SimpleLog.cs:1292-1297 | appending an item adds a separator exactly when items came before |
| TextLines.JoinEmpty | SimpleLog.cs:1292-1304 | the text is empty only when no item came before, so the `sb.Length > 0` test is the "not first" test |
| TextLines.JoinStartsWithFirst | SimpleLog.cs:1292-1304 | no separator before the first item |
| TextLines.JoinEndsWithLast | SimpleLog.cs:1292-1309 | no separator after the last item |
| TextLines.JoinLength | SimpleLog.cs:1292-1309 | the length is the items' lengths plus one separator between each pair |
| TextLines.PlainTextStartsWithRoot | SimpleLog.cs:1286-1298 | the line starts with the root element's first item |
| TextLines.ValueItemIsOneLine | SimpleLog.cs:1307-1309 | the value item holds no "\r\n" after its `name = ` head |
| XmlTree.ValueIsPreorderText | SimpleLog.cs:1308 | `Value` is the text of the element and its descendants in pre-order |
| XmlTree.DescendantsCount | SimpleLog.cs:1286 | the pre-order walk visits every element of the tree once |
| XmlTree.AttributeValue | SimpleLog.cs:1290-1297 | an attribute is found exactly when one of that name exists |
| Text.ReplaceCrLfRemovesAll | SimpleLog.cs:1308 | after `Replace("\r\n", " ")` no "\r\n" remains |
| Text.ReplaceCrLfIdentity | SimpleLog.cs:1308 | a text without "\r\n" is left as it is |
| Text.DecimalRoundTrip | SimpleLog.cs:719 | the decimal rendering of an integer reads back as that integer |
| Text.DecimalInjective | SimpleLog.cs:719 | different integers render differently |
| Text.HexRoundTrip | SimpleLog.cs:643 | `n` hex digits hold every value below 16^n exactly |
| Text.UInt32RoundTrip | SimpleLog.cs:643 | the `(uint)` cast of a 32-bit integer, cast back, gives it again |
| Text.TrimSlice | Program.cs:121-127 | `Trim` leaves a contiguous piece with only white space removed on either side |
| Text.TrimIdempotent | Program.cs:134-136 | trimming twice is trimming once |
| Text.IndexOf | Program.cs:138-147 | -1 exactly when the character does not occur from the start position on; otherwise its first position there |
| CommandLine.Remainder | Program.cs:121-136 | the text after the launcher's name is trimmed, and is absent when the offset lies past the end |
| CommandLine.QuotedLauncherStripped | Program.cs:121-136 | when the command line is the launcher's trimmed name in quotes followed by any text, the remainder is that text, trimmed |
| CommandLine.UnquotedLauncherStripped | Program.cs:121-136 | when the command line is the launcher's trimmed name, not starting with a quote, followed by any text, the remainder is that text, trimmed |
| CommandLine.GetArguments | Program.cs:119-151 | fails exactly when the remainder is absent or no token can be taken off it; the path is the token's and the arguments are the rest, trimmed |
| CommandLine.NextTokenFails | Program.cs:138-147 | taking the path off fails exactly when a quoted remainder has no closing quote or an unquoted one has no space |
| CommandLine.NextTokenQuoted | Program.cs:139-142 | a quoted remainder is `"` + path + `"` + rest, with no quote in the path |
| CommandLine.NextTokenUnquoted | Program.cs:144-147 | an unquoted remainder is path + " " + rest, with no space in the path |
| CommandLine.QuotedRoundTrip | Program.cs:139-150 | a path without quotes, quoted and put in front of any text, is taken off again with that text |
| CommandLine.UnquotedRoundTrip | Program.cs:144-150 | a path without spaces, followed by a space and any text, is taken off again with that text |
| CommandLine.NextTokenSlices | Program.cs:138-150 | the path and the rest are pieces of the remainder |
| CommandLine.GetArgumentsSlices | Program.cs:125-150 | the path and the returned arguments are pieces of the trimmed command line |

## Left out

- **File I/O and the file lock.** `FileStream` and `StreamWriter`, and the `Monitor.TryEnter` wait of 5 seconds, are left out. Each write attempt's outcome is an input (`WriteAttempt`), and the file is a sequence of appended lines.
- **XML text rendering.** `XElement.ToString` and `StreamWriter.WriteLine(xmlEntry)` are not modelled: an XML line keeps the element itself. For the same reason `GetExceptionAsXmlString`, `GetLogFileAsXml`, `GetLogFileAsText`, `LogFileExists` and `ShowLogFile` are left out; they read files or start processes.
- **Concurrency, `Task` creation, `Wait(1000)` and every `Thread.Sleep`.** The model is sequential. The writer loop `while (!StopLoggingRequested)` is one call of `WriterIteration` per turn. The backlog the retry loop sees is the queue length at that turn.
- **The process-exit handler.** `CurrentDomainProcessExit` only calls `StopLogging`.
- **The event-log write.** `EventLog` source creation and the message rendering are left out (SimpleLog.cs:1138-1164). The source swallows any failure there. Only the de-duplication guard and the exceptions forwarded to the event log are modelled.
- **Time and caller.** `DateTime.Now`, `DateTime.ToString(format)`, `GetCaller` (stack-frame reflection) and `Thread.ManagedThreadId` are inputs. The clock returns either the rendered date or the `FormatException` a pattern .NET rejects; which patterns those are is not modelled. One write attempt reads every `FileName` with one clock.
- **`Info`, `Warning` and `Error`** (SimpleLog.cs:534-559) only call `Log(message, severity, useBackgroundTask)`. They are `LogMessage` with a fixed severity.
- **`LogLevel`** is stored by `SetLogFile` but never read, so the model filters nothing.
- Logging.SimpleLog.LogException: requires `Serializable`, and so do `Faults.GetExceptionXElement`, `Faults.ExceptionElement`, `Faults.ExceptionElements`, `Faults.KindPart`, `Faults.TailPart` and the lemmas about the tree they build (`Faults.ExceptionAttributes`, `Faults.ExceptionChildren`, `Faults.ChainShape` and the others): every node of the tree must have a source value. `new XAttribute("Source", null)` throws, and that throw escapes `Log(Exception)`, because the tree is built before `Log(XElement)`'s `try`.
- FileWrites.Decorated: always sets `Filename`. The source ignores a failure of `ex.Data[...] = ...` on read-only data; the model does not represent read-only data.
- Logging.SimpleLog.WriteLogEntryToFile: has no null-entry branch; every caller passes an element.
- **Other exceptions.** The `catch` blocks of `Log(XElement)` and `SetLogFile` are not modelled. They catch exceptions the model's operations cannot raise, apart from the directory errors, which are modelled.
- Logging.SimpleLog.Flush: requires that a halting poll exists when the background task runs. The source could otherwise poll forever.
- **`Program.cs` `Main`, `Configure` and `GetTargetExecutablePath`.** These are process spawning, `ConfigurationManager`, regular expressions and file probing over `PATH`.
- CommandLine.GetArguments: models `StartsWith("\"")` and `IndexOf("\"", 1)` as ordinal comparisons. The source's culture-sensitive string overloads could treat a zero-width character before a quote differently.
- **Unicode.** `Text.IsWhiteSpace` lists the characters of `char.IsWhiteSpace`, but strings are sequences of UTF-16 code units with no normalisation.
