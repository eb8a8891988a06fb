/**
 * The `SimpleLog` engine: the bounded entry queue, the lifecycle of the
 * background writer, one iteration of that writer with its retry discipline,
 * the `Log` overloads, and the configuration updates `SetLogDir` and
 * `SetLogFile`.
 */
module Logging {
  import opened Wrappers
  import opened Text
  import opened XmlTree
  import opened Faults
  import opened TextLines
  import opened Settings
  import opened FileWrites
  import opened Lifecycles

  /** The queue takes no entry once it holds this many. */
  const Capacity: nat := 10000
  /** Tries per entry before the writer gives it up. */
  const MaxAttempts: nat := 10
  /** Above this many waiting entries the writer does not retry. */
  const BacklogLimit: nat := 1000
  /** The default message of `Check`. */
  const CheckMessage: string := "Test entry to see if logging works."

  /** The queue after `Enqueue` let an entry through the stop flag: it is added at the back unless the queue is full. */
  function AfterEnqueue(q: seq<XElement>, entry: XElement): (r: seq<XElement>)
    ensures |q| <= Capacity ==> |r| <= Capacity
    ensures |r| >= |q| && r[..|q|] == q
    ensures |r| == |q| + 1 <==> |q| < Capacity
    ensures |r| <= |q| + 1
    ensures |r| > |q| ==> r[|q|] == entry
  {
    if |q| < Capacity then q + [entry] else q
  }

  /**
   * The `LogEntry` element built by `Log`: date, severity, calling method and
   * thread, then the payload. `date` is the time of logging rendered as
   * `yyyy-MM-dd HH:mm:ss`, a fixed pattern that always renders.
   */
  function LogEntryElement(date: string, severity: Severity, caller: string, threadId: nat, payload: XElement): (r: XElement)
    ensures r.name == "LogEntry" && r.children == [payload] && r.text == ""
    ensures |r.attributes| == 4
  {
    XElement("LogEntry",
      [ XAttribute("Date", date),
        XAttribute("Severity", SeverityName(severity)),
        XAttribute("Source", caller),
        XAttribute("ThreadId", DecimalString(threadId)) ],
      "",
      [payload])
  }

  /** Each attribute of a log entry can be read back by name. */
  lemma LogEntryAttributes(date: string, severity: Severity, caller: string, threadId: nat, payload: XElement)
    ensures var r := LogEntryElement(date, severity, caller, threadId, payload);
      && AttributeValue(r, "Date") == Some(date)
      && AttributeValue(r, "Severity") == Some(SeverityName(severity))
      && AttributeValue(r, "Source") == Some(caller)
      && AttributeValue(r, "ThreadId").Some?
      && ParseDecimal(AttributeValue(r, "ThreadId").value) == threadId
  {
    var dt, sev, src, tid := XAttribute("Date", date), XAttribute("Severity", SeverityName(severity)),
      XAttribute("Source", caller), XAttribute("ThreadId", DecimalString(threadId));
    assert LogEntryElement(date, severity, caller, threadId, payload).attributes == [dt, sev, src, tid];
    assert "Severity"[0] != "Date"[0] && "Source"[0] != "Date"[0] && "Source"[1] != "Severity"[1];
    assert "ThreadId"[0] != "Date"[0] && "ThreadId"[0] != "Severity"[0] && "ThreadId"[0] != "Source"[0];
    assert Lookup([tid], "ThreadId") == Some(tid.value);
    assert Lookup([src, tid], "Source") == Some(src.value);
    assert Lookup([src, tid], "ThreadId") == Lookup([tid], "ThreadId") by { assert [src, tid][1..] == [tid]; }
    assert Lookup([sev, src, tid], "Severity") == Some(sev.value);
    assert Lookup([sev, src, tid], "Source") == Lookup([src, tid], "Source") by { assert [sev, src, tid][1..] == [src, tid]; }
    assert Lookup([sev, src, tid], "ThreadId") == Lookup([src, tid], "ThreadId") by { assert [sev, src, tid][1..] == [src, tid]; }
    var attrs := [dt, sev, src, tid];
    assert attrs[1..] == [sev, src, tid];
    DecimalRoundTrip(threadId);
  }

  /**
   * The plain-text line of a message entry: the four attributes and then the
   * message, each as `name = value`, separated by the text separator.
   */
  lemma MessageEntryText(date: string, severity: Severity, caller: string, threadId: nat, name: string, text: string, sep: string)
    ensures PlainText(LogEntryElement(date, severity, caller, threadId, Leaf(name, text)), sep)
         == ("Date" + " = " + date) + sep + ("Severity" + " = " + SeverityName(severity)) + sep
          + ("Source" + " = " + caller) + sep + ("ThreadId" + " = " + DecimalString(threadId)) + sep
          + (name + " = " + ReplaceCrLf(text))
  {
    var leaf := Leaf(name, text);
    var entry := LogEntryElement(date, severity, caller, threadId, leaf);
    assert DescendantsAll([leaf]) == [leaf] by {
      assert DescendantsAndSelf(leaf) == [leaf];
      assert [leaf][1..] == [];
    }
    assert DescendantsAndSelf(entry) == [entry, leaf];
    assert [entry, leaf][..1] == [entry];
    assert Items([entry]) == ElementItems(entry) by { assert [entry][..0] == []; }
    assert Value(leaf) == text;
    var attrs := entry.attributes;
    var a0, a1, a2, a3 := AttributeItem(attrs[0]), AttributeItem(attrs[1]), AttributeItem(attrs[2]), AttributeItem(attrs[3]);
    assert AttributeItems(attrs[..1]) == [a0] by { assert attrs[..1][..0] == []; }
    assert AttributeItems(attrs[..2]) == [a0, a1] by { assert attrs[..2][..1] == attrs[..1]; }
    assert AttributeItems(attrs[..3]) == [a0, a1, a2] by { assert attrs[..3][..2] == attrs[..2]; }
    assert AttributeItems(attrs) == [a0, a1, a2, a3] by { assert attrs[..3] == attrs[..3]; }
    var items := Items([entry, leaf]);
    assert items == [a0, a1, a2, a3, ValueItem(leaf)];
    JoinSnoc([a0, a1, a2, a3], ValueItem(leaf), sep);
    JoinSnoc([a0, a1, a2], a3, sep);
    JoinSnoc([a0, a1], a2, sep);
    JoinSnoc([a0], a1, sep);
  }

  // ---------------------------------------------------------------------------
  // The log directory

  /**
   * The file system as `SetLogDir` sees it: `DirectoryInfo(path).FullName`
   * (None when the constructor rejects the path, with the exception it throws),
   * whether a directory exists, and what creating it throws, if anything.
   * `assemblyName` and `stackTrace` are what the runtime records in the
   * `DirectoryNotFoundException` that `SetLogDir` throws itself.
   */
  datatype FileSystem = FileSystem(
    fullName: string -> Option<string>,
    pathError: string -> Exn,
    isDirectory: string -> bool,
    createError: string -> Option<Exn>,
    assemblyName: string,
    stackTrace: string)

  /** The directory after `SetLogDir` and what it returned. */
  datatype DirResult = DirResult(logDir: string, error: Option<Exn>)

  /** The directory `SetLogDir` opens: the current one for null or "". */
  function RequestedDirectory(logDirectory: Option<string>, currentDirectory: string): (path: string)
    ensures logDirectory.None? || logDirectory == Some("") ==> path == currentDirectory
    ensures logDirectory.Some? && logDirectory != Some("") ==> path == logDirectory.value
  {
    if logDirectory.None? || logDirectory.value == "" then currentDirectory else logDirectory.value
  }

  const DirectoryNotFoundHead: string := "Directory '"
  const DirectoryNotFoundTail: string := "' does not exist!"

  /** The full name of the class that declares `SetLogDir`. */
  const SimpleLogTypeName: string := "PowerShellWindowHost.SimpleLog"

  /**
   * The `DirectoryNotFoundException` that `SetLogDir` throws and catches: it
   * names the directory, its target site is `SimpleLog.SetLogDir`, and being
   * thrown it carries the assembly as `Source` and a stack trace, so it can
   * be serialised and logged like any other exception.
   */
  function DirectoryNotFound(fullName: string, fs: FileSystem): (ex: Exn)
    ensures ex.message == DirectoryNotFoundHead + fullName + DirectoryNotFoundTail
    ensures ex.kind.Generic? && ex.typeName == Some("System.IO.DirectoryNotFoundException")
    ensures SourceValue(ex) == Some(SimpleLogTypeName + ".SetLogDir")
    ensures ex.inner.None? && ex.stackTrace == Some(fs.stackTrace) && ex.data == []
    ensures Serializable(ex)
  {
    var ex := Exn(Generic, Some("System.IO.DirectoryNotFoundException"), Some(TargetSite(Some(SimpleLogTypeName), "SetLogDir")),
      Some(fs.assemblyName), DirectoryNotFoundHead + fullName + DirectoryNotFoundTail, [], None, Some(fs.stackTrace));
    assert SimpleLogTypeName + "." + "SetLogDir" == SimpleLogTypeName + ".SetLogDir";
    ex
  }

  /**
   * `SetLogDir`: a rejected path leaves the directory as it was and returns the
   * error; otherwise the directory is replaced first, and then a missing
   * directory is created, or reported when creation is not asked for.
   */
  function DirectoryChange(logDir: string, logDirectory: Option<string>, createIfNotExisting: bool, currentDirectory: string, fs: FileSystem): (r: DirResult)
    ensures var path := RequestedDirectory(logDirectory, currentDirectory);
      && (fs.fullName(path).None? ==> r == DirResult(logDir, Some(fs.pathError(path))))
      && (fs.fullName(path).Some? ==> r.logDir == fs.fullName(path).value)
      && (r.error.None? <==> fs.fullName(path).Some? && (fs.isDirectory(r.logDir) || (createIfNotExisting && fs.createError(r.logDir).None?)))
  {
    var path := RequestedDirectory(logDirectory, currentDirectory);
    match fs.fullName(path)
    case None => DirResult(logDir, Some(fs.pathError(path)))
    case Some(full) =>
      if fs.isDirectory(full) then DirResult(full, None)
      else if createIfNotExisting then DirResult(full, fs.createError(full))
      else DirResult(full, Some(DirectoryNotFound(full, fs)))
  }

  /**
   * A missing directory that is not to be created is reported, yet it has
   * already become the log directory: the previous directory is not kept.
   */
  lemma MissingDirectoryStillReplaces(logDir: string, logDirectory: Option<string>, currentDirectory: string, fs: FileSystem)
    requires var path := RequestedDirectory(logDirectory, currentDirectory);
      fs.fullName(path).Some? && !fs.isDirectory(fs.fullName(path).value)
    ensures var full := fs.fullName(RequestedDirectory(logDirectory, currentDirectory)).value;
      DirectoryChange(logDir, logDirectory, false, currentDirectory, fs) == DirResult(full, Some(DirectoryNotFound(full, fs)))
  {
  }

  /** Null and the empty string both select the current directory. */
  lemma EmptyDirectoryIsCurrent(logDir: string, createIfNotExisting: bool, currentDirectory: string, fs: FileSystem)
    ensures DirectoryChange(logDir, Some(""), createIfNotExisting, currentDirectory, fs)
         == DirectoryChange(logDir, None, createIfNotExisting, currentDirectory, fs)
         == DirectoryChange(logDir, Some(currentDirectory), createIfNotExisting, currentDirectory, fs)
  {
  }

  /** `SetLogFile`'s property assignments, in its order: each null argument leaves its setting as it was. */
  function Updated(c: Config, prefix: Option<string>, suffix: Option<string>, extension: Option<string>, dateFormat: Option<string>,
                   logLevel: Option<Severity>, startExplicitly: Option<bool>, writeText: Option<bool>, textSeparator: Option<string>): (r: Config)
    ensures r.prefix == (if prefix.Some? then prefix else c.prefix)
    ensures r.suffix == (if suffix.Some? then suffix else c.suffix)
    ensures r.extension == (if extension.Some? then extension else c.extension)
    ensures r.dateFormat == (if dateFormat.Some? then dateFormat else c.dateFormat)
    ensures r.logLevel == logLevel.GetOr(c.logLevel)
    ensures r.startExplicitly == startExplicitly.GetOr(c.startExplicitly)
    ensures r.writeText == writeText.GetOr(c.writeText)
    ensures r.textSeparator == textSeparator.GetOr(c.textSeparator)
    ensures r.logDir == c.logDir && r.backgroundTaskDisabled == c.backgroundTaskDisabled
  {
    Config(
      c.logDir,
      if prefix.Some? then prefix else c.prefix,
      if suffix.Some? then suffix else c.suffix,
      if extension.Some? then extension else c.extension,
      if dateFormat.Some? then dateFormat else c.dateFormat,
      textSeparator.GetOr(c.textSeparator),
      logLevel.GetOr(c.logLevel),
      startExplicitly.GetOr(c.startExplicitly),
      writeText.GetOr(c.writeText),
      c.backgroundTaskDisabled)
  }

  /** With every argument null `SetLogFile` changes no setting. */
  lemma UpdatedNothing(c: Config)
    ensures Updated(c, None, None, None, None, None, None, None, None) == c
  {
  }

  /**
   * What `Flush` observes in one turn of its loop: the number of waiting
   * entries when the loop condition is read, when it is remembered, and after
   * the 222 ms pause.
   */
  datatype Poll = Poll(atCheck: nat, before: nat, after: nat)

  /** `Flush` leaves its loop at this turn: the queue is empty, or the pause changed nothing. */
  predicate Halts(p: Poll) {
    p.atCheck == 0 || p.before == p.after
  }

  /**
   * `Flush` paused `sleeps` times on these polls: it left at the first turn
   * that halts, after a pause in that turn unless the queue was already empty.
   */
  predicate FlushPauses(polls: seq<Poll>, sleeps: nat) {
    exists t :: 0 <= t < |polls| && Halts(polls[t])
      && (forall j :: 0 <= j < t ==> !Halts(polls[j]))
      && sleeps == (if polls[t].atCheck == 0 then t else t + 1)
  }

  /**
   * The lines that writer turns add when each entry's first try is the one
   * kept: entry `i` is tried with `rounds[i]`, in queue order.
   */
  function BacklogAppends(c: Config, entries: seq<XElement>, rounds: seq<seq<WriteAttempt>>): seq<FileAppend>
    requires |entries| <= |rounds|
    requires forall i :: 0 <= i < |rounds| ==> |rounds[i]| > 0
  {
    if entries == [] then []
    else
      var n := |entries| - 1;
      BacklogAppends(c, entries[..n], rounds) + AttemptAppends(c, entries[n], rounds[n][0])
  }

  /**
   * When every first try succeeds, the file receives exactly one line per
   * entry, in queue order, each in the file named for its try's instant.
   */
  lemma {:induction false} BacklogAppendsInOrder(c: Config, entries: seq<XElement>, rounds: seq<seq<WriteAttempt>>)
    requires |entries| <= |rounds|
    requires forall i :: 0 <= i < |rounds| ==> |rounds[i]| > 0
    requires forall i :: 0 <= i < |entries| ==> AttemptError(c, rounds[i][0]).None?
    ensures var r := BacklogAppends(c, entries, rounds);
      && |r| == |entries|
      && forall i :: 0 <= i < |entries| ==>
           GetFileName(c, rounds[i][0].now).Rendered?
           && r[i] == FileAppend(GetFileName(c, rounds[i][0].now).text, EntryLine(c, entries[i]))
  {
    if entries != [] {
      var n := |entries| - 1;
      BacklogAppendsInOrder(c, entries[..n], rounds);
    }
  }

  lemma BacklogAppendsSnoc(c: Config, q: seq<XElement>, rounds: seq<seq<WriteAttempt>>, i: nat)
    requires i < |q| && i < |rounds|
    requires forall j :: 0 <= j < |rounds| ==> |rounds[j]| > 0
    ensures BacklogAppends(c, q[..i + 1], rounds) == BacklogAppends(c, q[..i], rounds) + AttemptAppends(c, q[i], rounds[i][0])
  {
    assert q[..i + 1][..i] == q[..i];
  }

  /** A first try that succeeds forwards nothing. */
  lemma FirstTrySucceeds(c: Config, last: Option<Exn>, attempts: seq<WriteAttempt>)
    requires |attempts| > 0 && AttemptError(c, attempts[0]).None?
    ensures Forwarded(last, Errors(c, attempts[..1])) == []
  {
    assert Errors(c, attempts[..1]) == [None] by {
      assert attempts[..1][..0] == [];
    }
  }

  lemma FailuresExtend(c: Config, attempts: seq<WriteAttempt>, k: nat)
    requires k < |attempts|
    requires forall j :: 0 <= j < k ==> AttemptError(c, attempts[j]).Some?
    requires AttemptError(c, attempts[k]).Some?
    ensures forall j :: 0 <= j < k + 1 ==> AttemptError(c, attempts[j]).Some?
  {
  }

  class SimpleLog {
    /** `LogEntryQueue`, front first. */
    var queue: seq<XElement>
    /** `LoggingStarted`: the background task exists. */
    var started: bool
    var stopEnqueing: bool
    var stopRequested: bool
    var lastError: Option<Exn>
    /** Exceptions forwarded to the Windows event log, oldest first. */
    var eventLog: seq<Exn>
    /** Lines appended to log files, oldest first. */
    var file: seq<FileAppend>
    var config: Config

    function State(): Flags
      reads this
    {
      Flags(started, stopEnqueing, stopRequested)
    }

    ghost predicate Valid()
      reads this
    {
      |queue| <= Capacity && Consistent(State())
    }

    /** The static state as initialised, with `currentDirectory` the working directory's full name. */
    constructor (currentDirectory: string)
      ensures Valid()
      ensures queue == [] && State() == Flags(false, false, false) && lastError.None?
      ensures eventLog == [] && file == [] && config == InitialConfig(currentDirectory)
    {
      queue := [];
      started, stopEnqueing, stopRequested := false, false, false;
      lastError := None;
      eventLog, file := [], [];
      config := InitialConfig(currentDirectory);
    }

    // -------------------------------------------------------------------------
    // Lifecycle

    /** `StartLogging`. */
    method StartLogging()
      requires Valid()
      modifies this`started, this`stopEnqueing, this`stopRequested, this`lastError
      ensures Valid()
      ensures State() == Start(old(State()))
      ensures lastError == if started && !old(started) then None else old(lastError)
    {
      if started || stopEnqueing || stopRequested {
        return;
      }
      stopEnqueing := false;
      stopRequested := false;
      // inside the lock on the background task
      if started {
        return;
      }
      lastError := None;
      started := true;
    }

    /**
     * `Flush`: while entries wait, pause and look again, giving up when a pause
     * changed nothing. Returns the number of pauses. The polls are what the
     * loop observes in successive turns; one of them must end it.
     */
    method Flush(polls: seq<Poll>) returns (sleeps: nat)
      requires started ==> exists t :: 0 <= t < |polls| && Halts(polls[t])
      ensures !started ==> sleeps == 0
      ensures started ==> FlushPauses(polls, sleeps)
    {
      sleeps := 0;
      if !started {
        return;
      }
      var t := 0;
      while polls[t].atCheck > 0
        invariant 0 <= t < |polls|
        invariant exists w :: t <= w < |polls| && Halts(polls[w])
        invariant forall j :: 0 <= j < t ==> !Halts(polls[j])
        invariant sleeps == t
        decreases |polls| - t
      {
        var lastNumber := polls[t].before;
        // Thread.Sleep(222)
        sleeps := sleeps + 1;
        if lastNumber == polls[t].after {
          return;
        }
        t := t + 1;
      }
    }

    /**
     * `StopLogging`: stop enqueueing, flush when asked and the background task
     * runs, then stop and drop the background task. Returns the number of
     * pauses the flush made.
     */
    method StopLogging(flush: bool, polls: seq<Poll>) returns (sleeps: nat)
      requires Valid()
      requires flush && started ==> exists t :: 0 <= t < |polls| && Halts(polls[t])
      modifies this`started, this`stopEnqueing, this`stopRequested
      ensures Valid()
      ensures State() == Stop(old(State()))
      ensures !flush || !old(started) ==> sleeps == 0
      ensures flush && old(started) ==> FlushPauses(polls, sleeps)
    {
      sleeps := 0;
      stopEnqueing := true;
      if !started {
        return;
      }
      if flush {
        sleeps := Flush(polls);
      }
      stopRequested := true;
      // inside the lock: wait for the background task, then drop it
      started := false;
    }

    // -------------------------------------------------------------------------
    // The queue

    /** `Enqueue`: refused after a stop; starts logging unless told to wait; drops the entry when full. */
    method Enqueue(entry: XElement)
      requires Valid()
      modifies this`queue, this`started, this`stopEnqueing, this`stopRequested, this`lastError
      ensures Valid()
      ensures State() == EnqueueStep(old(State()), config.startExplicitly)
      ensures queue == if old(stopEnqueing) then old(queue) else AfterEnqueue(old(queue), entry)
      ensures lastError == if started && !old(started) then None else old(lastError)
    {
      if stopEnqueing {
        return;
      }
      if !config.startExplicitly {
        StartLogging();
      }
      if |queue| < Capacity {
        queue := queue + [entry];
      }
    }

    /** `Peek`: the front entry, or null when the queue is empty. */
    method Peek() returns (entry: Option<XElement>)
      ensures entry.None? <==> queue == []
      ensures entry.Some? ==> entry.value == queue[0]
    {
      entry := if |queue| == 0 then None else Some(queue[0]);
    }

    /** `Dequeue`: drops the front entry, if any. */
    method Dequeue()
      requires Valid()
      modifies this`queue
      ensures Valid()
      ensures old(queue) == [] ==> queue == []
      ensures old(queue) != [] ==> queue == old(queue)[1..]
    {
      if |queue| > 0 {
        queue := queue[1..];
      }
    }

    /** `ClearQueue`. */
    method ClearQueue()
      requires Valid()
      modifies this`queue
      ensures Valid()
      ensures queue == []
    {
      queue := [];
    }

    // -------------------------------------------------------------------------
    // Writing

    /** `WriteLogEntryToFile`: one attempt to append the entry to the current log file. */
    method WriteLogEntryToFile(entry: XElement, attempt: WriteAttempt) returns (error: Option<Exn>)
      modifies this`file
      ensures error == AttemptError(config, attempt)
      ensures file == old(file) + AttemptAppends(config, entry, attempt)
    {
      match GetFileName(config, attempt.now)
      case Thrown(formatError) =>
        // `FileName` throws before the stream opens, or while the timeout message is built
        error := Some(if attempt.outcome.LockTimeout? then formatError else WithUser(formatError, attempt.userName));
      case Rendered(fileName) =>
        match attempt.outcome
        case LockTimeout =>
          error := Some(LockTimeoutError(fileName));
        case IoFailure(e) =>
          error := Some(Decorated(e, fileName, attempt.userName));
        case Written =>
          var line;
          if config.writeText {
            var text := ConvertXmlToPlainText(entry, config.textSeparator);
            line := TextLine(text);
          } else {
            line := XmlLine(entry);
          }
          file := file + [FileAppend(fileName, line)];
          error := None;
    }

    /** `WriteOwnExceptionToEventLog`: forwards a failure unless it repeats the last recorded message. */
    method WriteOwnExceptionToEventLog(ex: Option<Exn>)
      modifies this`eventLog
      ensures eventLog == old(eventLog) + (if IsForwarded(ex, lastError) then [ex.value] else [])
    {
      if ex.None? || (lastError.Some? && ex.value.message == lastError.value.message) {
        return;
      }
      eventLog := eventLog + [ex.value];
    }

    /**
     * One try of the writer: write, forward the failure if new, record it as
     * the last exception. `errors` are the results of the earlier tries of the
     * same entry, which started from `last` with the event log at `log`.
     */
    method TryWrite(entry: XElement, attempt: WriteAttempt, ghost last: Option<Exn>, ghost log: seq<Exn>, ghost errors: seq<Option<Exn>>)
      returns (ex: Option<Exn>)
      requires lastError == Previous(last, errors)
      requires eventLog == log + Forwarded(last, errors)
      modifies this`lastError, this`eventLog, this`file
      ensures ex == AttemptError(config, attempt)
      ensures lastError == Previous(last, errors + [ex])
      ensures eventLog == log + Forwarded(last, errors + [ex])
      ensures file == old(file) + AttemptAppends(config, entry, attempt)
    {
      ex := WriteLogEntryToFile(entry, attempt);
      WriteOwnExceptionToEventLog(ex);
      lastError := ex;
      ForwardedSnoc(last, errors, ex);
    }

    /**
     * The retry loop of `WriteLogEntriesToFile` for one entry: up to ten tries,
     * stopping at the first success, or after any failure while more than 1000
     * entries wait. `attempts` are the outcomes the tries meet.
     */
    method TryEntry(entry: XElement, attempts: seq<WriteAttempt>) returns (tries: nat)
      requires |attempts| >= MaxAttempts
      modifies this`lastError, this`eventLog, this`file
      ensures 1 <= tries <= MaxAttempts
      ensures forall j :: 0 <= j < tries - 1 ==> AttemptError(config, attempts[j]).Some?
      ensures tries > 1 ==> |queue| <= BacklogLimit
      ensures tries < MaxAttempts ==> AttemptError(config, attempts[tries - 1]).None? || |queue| > BacklogLimit
      ensures lastError == AttemptError(config, attempts[tries - 1])
      ensures file == old(file) + AttemptAppends(config, entry, attempts[tries - 1])
      ensures eventLog == old(eventLog) + Forwarded(old(lastError), Errors(config, attempts[..tries]))
    {
      tries := 0;
      ghost var errors: seq<Option<Exn>> := [];
      while true
        invariant 0 <= tries < MaxAttempts
        invariant file == old(file)
        invariant errors == Errors(config, attempts[..tries])
        invariant lastError == Previous(old(lastError), errors)
        invariant eventLog == old(eventLog) + Forwarded(old(lastError), errors)
        invariant forall j :: 0 <= j < tries ==> AttemptError(config, attempts[j]).Some?
        invariant tries > 0 ==> |queue| <= BacklogLimit
        decreases MaxAttempts - tries
      {
        var ex := TryWrite(entry, attempts[tries], old(lastError), old(eventLog), errors);
        ErrorsSnoc(config, attempts, tries);
        errors := errors + [ex];
        if ex.None? || |queue| > BacklogLimit || tries == MaxAttempts - 1 {
          tries := tries + 1;
          return;
        }
        FailuresExtend(config, attempts, tries);
        tries := tries + 1;
        // Thread.Sleep(100)
      }
    }

    /**
     * One turn of `WriteLogEntriesToFile`. With an empty queue nothing happens
     * (the background task pauses and looks again). Otherwise the front entry is tried (see
     * `TryEntry`) and then removed whether or not it was written.
     */
    method WriterIteration(attempts: seq<WriteAttempt>) returns (tries: nat)
      requires Valid() && started
      requires |attempts| >= MaxAttempts
      modifies this`queue, this`lastError, this`eventLog, this`file
      ensures Valid()
      ensures old(queue) == [] ==>
        tries == 0 && queue == [] && lastError == old(lastError) && eventLog == old(eventLog) && file == old(file)
      ensures old(queue) != [] ==>
        && 1 <= tries <= MaxAttempts
        && (forall j :: 0 <= j < tries - 1 ==> AttemptError(config, attempts[j]).Some?)
        && (tries > 1 ==> |old(queue)| <= BacklogLimit)
        && (tries < MaxAttempts ==> AttemptError(config, attempts[tries - 1]).None? || |old(queue)| > BacklogLimit)
        && lastError == AttemptError(config, attempts[tries - 1])
        && file == old(file) + AttemptAppends(config, old(queue)[0], attempts[tries - 1])
        && eventLog == old(eventLog) + Forwarded(old(lastError), Errors(config, attempts[..tries]))
        && queue == old(queue)[1..]
    {
      tries := 0;
      var xmlEntry := Peek();
      if xmlEntry.None? {
        return;
      }
      tries := TryEntry(xmlEntry.value, attempts);
      Dequeue();
    }

    /**
     * Successive turns of `WriteLogEntriesToFile`, one per element of `rounds`,
     * while the background task keeps running. When each front entry is
     * written at its first try, the entries reach the file in the order they
     * were enqueued, leave the queue, and nothing is forwarded.
     */
    method WriterTurns(rounds: seq<seq<WriteAttempt>>)
      requires Valid() && started
      requires |rounds| <= |queue|
      requires forall i :: 0 <= i < |rounds| ==> |rounds[i]| >= MaxAttempts
      requires forall i :: 0 <= i < |rounds| ==> AttemptError(config, rounds[i][0]).None?
      modifies this`queue, this`lastError, this`eventLog, this`file
      ensures Valid()
      ensures queue == old(queue)[|rounds|..]
      ensures file == old(file) + BacklogAppends(config, old(queue)[..|rounds|], rounds)
      ensures eventLog == old(eventLog)
      ensures lastError == if rounds == [] then old(lastError) else None
    {
      var i := 0;
      while i < |rounds|
        invariant 0 <= i <= |rounds|
        invariant Valid()
        invariant queue == old(queue)[i..]
        invariant file == old(file) + BacklogAppends(config, old(queue)[..i], rounds)
        invariant eventLog == old(eventLog)
        invariant lastError == if i == 0 then old(lastError) else None
      {
        ghost var before := lastError;
        var tries := WriterIteration(rounds[i]);
        assert tries == 1;
        FirstTrySucceeds(config, before, rounds[i]);
        BacklogAppendsSnoc(config, old(queue), rounds, i);
        i := i + 1;
      }
    }

    // -------------------------------------------------------------------------
    // Logging

    /**
     * The effect of handing `entry` to the writing machinery: on the background
     * path it is enqueued and null returned; on the direct path it is written
     * at once and the write's result returned.
     */
    twostate predicate Logged(entry: XElement, useBackgroundTask: bool, attempt: WriteAttempt, new error: Option<Exn>)
      reads this
    {
      && config == old(config) && eventLog == old(eventLog)
      && if useBackgroundTask && !old(config.backgroundTaskDisabled) then
        && error.None? && file == old(file)
        && State() == EnqueueStep(old(State()), old(config.startExplicitly))
        && queue == (if old(stopEnqueing) then old(queue) else AfterEnqueue(old(queue), entry))
        && lastError == (if started && !old(started) then None else old(lastError))
      else
        && error == AttemptError(old(config), attempt)
        && file == old(file) + AttemptAppends(old(config), entry, attempt)
        && queue == old(queue) && State() == old(State()) && lastError == old(lastError)
    }

    /**
     * `Log(XElement, ...)`: null is ignored; otherwise the entry is wrapped in a
     * `LogEntry` and enqueued or written. No severity is filtered out.
     * `date` is the time of logging as `yyyy-MM-dd HH:mm:ss`; `caller` and
     * `threadId` are `GetCaller`'s result and the managed thread id.
     */
    method LogElement(xElement: Option<XElement>, severity: Severity, useBackgroundTask: bool,
                      date: string, caller: string, threadId: nat, attempt: WriteAttempt) returns (error: Option<Exn>)
      requires Valid()
      modifies this
      ensures Valid()
      ensures xElement.None? ==> error.None? && unchanged(this)
      ensures xElement.Some? ==> Logged(LogEntryElement(date, severity, caller, threadId, xElement.value), useBackgroundTask, attempt, error)
    {
      if xElement.None? {
        return None;
      }
      var logEntry := LogEntryElement(date, severity, caller, threadId, xElement.value);
      if useBackgroundTask && !config.backgroundTaskDisabled {
        Enqueue(logEntry);
        error := None;
      } else {
        error := WriteLogEntryToFile(logEntry, attempt);
      }
    }

    /** `Log(string, ...)`: a null or empty message is ignored; otherwise it is logged as a `Message` element. */
    method LogMessage(message: Option<string>, severity: Severity, useBackgroundTask: bool,
                      date: string, caller: string, threadId: nat, attempt: WriteAttempt) returns (error: Option<Exn>)
      requires Valid()
      modifies this
      ensures Valid()
      ensures message.None? || message == Some("") ==> error.None? && unchanged(this)
      ensures message.Some? && message != Some("") ==>
        Logged(LogEntryElement(date, severity, caller, threadId, Leaf("Message", message.value)), useBackgroundTask, attempt, error)
    {
      if message.None? || message.value == "" {
        return None;
      }
      error := LogElement(Some(Leaf("Message", message.value)), severity, useBackgroundTask, date, caller, threadId, attempt);
    }

    /** `Log(Exception, ...)`: null is ignored; otherwise the exception's tree is logged with severity Exception. */
    method LogException(ex: Option<Exn>, useBackgroundTask: bool,
                        date: string, caller: string, threadId: nat, attempt: WriteAttempt) returns (error: Option<Exn>)
      requires Valid()
      requires ex.Some? ==> Serializable(ex.value)
      modifies this
      ensures Valid()
      ensures ex.None? ==> error.None? && unchanged(this)
      ensures ex.Some? ==>
        Logged(LogEntryElement(date, Severity.Exception, caller, threadId, ExceptionElement(ex.value)), useBackgroundTask, attempt, error)
    {
      if ex.None? {
        return None;
      }
      error := LogElement(GetExceptionXElement(ex), Severity.Exception, useBackgroundTask, date, caller, threadId, attempt);
    }

    /** `Check`: writes `message` directly, bypassing the background task, and returns the result. */
    method Check(message: Option<string>, date: string, caller: string, threadId: nat, attempt: WriteAttempt) returns (error: Option<Exn>)
      requires Valid()
      modifies this
      ensures Valid()
      ensures message.None? || message == Some("") ==> error.None? && unchanged(this)
      ensures message.Some? && message != Some("") ==>
        && error == AttemptError(old(config), attempt)
        && file == old(file) + AttemptAppends(old(config), LogEntryElement(date, Info, caller, threadId, Leaf("Message", message.value)), attempt)
        && queue == old(queue) && State() == old(State()) && lastError == old(lastError)
        && config == old(config) && eventLog == old(eventLog)
    {
      error := LogMessage(message, Info, false, date, caller, threadId, attempt);
    }

    // -------------------------------------------------------------------------
    // Configuration

    /** `SetLogDir`. `fs` answers the file-system questions it asks. */
    method SetLogDir(logDirectory: Option<string>, createIfNotExisting: bool, currentDirectory: string, fs: FileSystem)
      returns (error: Option<Exn>)
      modifies this`config
      ensures var r := DirectoryChange(old(config.logDir), logDirectory, createIfNotExisting, currentDirectory, fs);
        config == old(config).(logDir := r.logDir) && error == r.error
    {
      var path := RequestedDirectory(logDirectory, currentDirectory);
      var full := fs.fullName(path);
      if full.None? {
        return Some(fs.pathError(path));
      }
      config := config.(logDir := full.value);
      if !fs.isDirectory(full.value) {
        if createIfNotExisting {
          error := fs.createError(full.value);
        } else {
          error := Some(DirectoryNotFound(full.value, fs));
        }
      } else {
        error := None;
      }
    }

    /**
     * The second half of `SetLogFile`: the directory, when one is given, and
     * then, unless that failed, the `Check` entry when asked.
     */
    method DirectoryThenCheck(logDirectory: Option<string>, check: bool,
                              currentDirectory: string, fs: FileSystem, date: string, caller: string, threadId: nat, attempt: WriteAttempt)
      returns (error: Option<Exn>)
      requires Valid()
      modifies this
      ensures Valid()
      ensures var d := if logDirectory.Some? then DirectoryChange(old(config.logDir), logDirectory, true, currentDirectory, fs)
                       else DirResult(old(config.logDir), None);
        && config == old(config).(logDir := d.logDir)
        && queue == old(queue) && State() == old(State()) && lastError == old(lastError) && eventLog == old(eventLog)
        && (d.error.Some? ==> error == d.error && file == old(file))
        && (d.error.None? && !check ==> error.None? && file == old(file))
        && (d.error.None? && check ==>
             && error == AttemptError(config, attempt)
             && file == old(file) + AttemptAppends(config, LogEntryElement(date, Info, caller, threadId, Leaf("Message", CheckMessage)), attempt))
    {
      error := None;
      if logDirectory.Some? {
        error := SetLogDir(logDirectory, true, currentDirectory, fs);
      }
      if error.None? && check {
        error := Check(Some(CheckMessage), date, caller, threadId, attempt);
      }
    }

    /**
     * `SetLogFile`: assigns every non-null setting, then sets the directory
     * (creating it) when one is given, then, unless that failed, writes the
     * `Check` entry when asked and returns its result.
     */
    method SetLogFile(logDirectory: Option<string>, prefix: Option<string>, suffix: Option<string>, extension: Option<string>,
                      dateFormat: Option<string>, logLevel: Option<Severity>, startExplicitly: Option<bool>, check: bool,
                      writeText: Option<bool>, textSeparator: Option<string>,
                      currentDirectory: string, fs: FileSystem, date: string, caller: string, threadId: nat, attempt: WriteAttempt)
      returns (error: Option<Exn>)
      requires Valid()
      modifies this
      ensures Valid()
      ensures var c := Updated(old(config), prefix, suffix, extension, dateFormat, logLevel, startExplicitly, writeText, textSeparator);
        var d := if logDirectory.Some? then DirectoryChange(old(config.logDir), logDirectory, true, currentDirectory, fs)
                 else DirResult(old(config.logDir), None);
        && config == c.(logDir := d.logDir)
        && queue == old(queue) && State() == old(State()) && lastError == old(lastError) && eventLog == old(eventLog)
        && (d.error.Some? ==> error == d.error && file == old(file))
        && (d.error.None? && !check ==> error.None? && file == old(file))
        && (d.error.None? && check ==>
             && error == AttemptError(config, attempt)
             && file == old(file) + AttemptAppends(config, LogEntryElement(date, Info, caller, threadId, Leaf("Message", CheckMessage)), attempt))
    {
      config := Updated(config, prefix, suffix, extension, dateFormat, logLevel, startExplicitly, writeText, textSeparator);
      error := DirectoryThenCheck(logDirectory, check, currentDirectory, fs, date, caller, threadId, attempt);
    }
  }
}
