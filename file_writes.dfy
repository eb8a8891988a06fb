/**
 * `WriteLogEntryToFile` seen from outside: what one attempt to append an entry
 * returns and what it adds to the file, and the rule by which the background
 * writer forwards failed attempts to the Windows event log.
 */
module FileWrites {
  import opened Wrappers
  import opened XmlTree
  import opened Faults
  import opened TextLines
  import opened Settings

  /** `SecondsToWaitForFile`: how long a write waits for the file lock. */
  const SecondsToWaitForFile: nat := 5

  /**
   * What happened to one attempt: the lock was taken and the append succeeded,
   * or the append threw `error`, or the lock was not acquired within the wait.
   */
  datatype WriteOutcome =
    | Written
    | IoFailure(error: Exn)
    | LockTimeout

  /**
   * One attempt: the clock it reads `FileName` from, the current Windows user's
   * name (None when it cannot be obtained), and its outcome.
   */
  datatype WriteAttempt = WriteAttempt(now: Clock, userName: Option<string>, outcome: WriteOutcome)

  /** A line appended to the log file: the entry as XML, or its plain-text form. */
  datatype LogLine = XmlLine(entry: XElement) | TextLine(text: string)

  datatype FileAppend = FileAppend(fileName: string, line: LogLine)

  /** The first pair of `data` with key `key`. */
  function FindEntry(data: seq<DataEntry>, key: string): (r: Option<DataEntry>)
    ensures r.Some? ==> r.value in data && r.value.key == key
    ensures r.None? <==> forall d :: d in data ==> d.key != key
  {
    if data == [] then None
    else if data[0].key == key then Some(data[0])
    else FindEntry(data[1..], key)
  }

  /** `ex.Data[key] = value`: replaces the value under an existing key, otherwise adds the pair at the end. */
  function SetEntry(data: seq<DataEntry>, key: string, value: Option<string>): seq<DataEntry> {
    if data == [] then [DataEntry(key, value)]
    else if data[0].key == key then [DataEntry(key, value)] + data[1..]
    else [data[0]] + SetEntry(data[1..], key, value)
  }

  /**
   * After `SetEntry` the key finds the new value and every other key finds what
   * it found before; an existing key is replaced in place, a new one added last.
   */
  lemma {:induction false} SetEntryFinds(data: seq<DataEntry>, key: string, value: Option<string>)
    ensures FindEntry(SetEntry(data, key, value), key) == Some(DataEntry(key, value))
    ensures forall k :: k != key ==> FindEntry(SetEntry(data, key, value), k) == FindEntry(data, k)
    ensures FindEntry(data, key).Some? ==> |SetEntry(data, key, value)| == |data|
    ensures FindEntry(data, key).None? ==> SetEntry(data, key, value) == data + [DataEntry(key, value)]
  {
    if data != [] && data[0].key != key {
      SetEntryFinds(data[1..], key, value);
      var r := SetEntry(data, key, value);
      forall k | k != key
        ensures FindEntry(r, k) == FindEntry(data, k)
      {
        assert r[1..] == SetEntry(data[1..], key, value);
      }
      if FindEntry(data, key).None? {
        assert [data[0]] + (data[1..] + [DataEntry(key, value)]) == data + [DataEntry(key, value)];
      }
    }
  }

  const LockTimeoutHead: string := "Could not write to file '"
  const LockTimeoutTail: string := "', because it was blocked by another thread for more than 5 seconds."

  /** The exception returned when the file lock was not acquired in time. */
  function LockTimeoutError(fileName: string): (ex: Exn)
    ensures ex.message == LockTimeoutHead + fileName + LockTimeoutTail
  {
    NewException("System.Exception",
      LockTimeoutHead + fileName + LockTimeoutTail)
  }

  /** `ex.Data["Username"] = user.Name` when the user name is known. */
  function WithUser(error: Exn, userName: Option<string>): Exn {
    if userName.Some? then error.(data := SetEntry(error.data, "Username", userName)) else error
  }

  /**
   * The failing exception as returned: the file name under `Filename` and, when
   * known, the user name under `Username`.
   */
  function Decorated(error: Exn, fileName: string, userName: Option<string>): Exn {
    WithUser(error.(data := SetEntry(error.data, "Filename", Some(fileName))), userName)
  }

  /** The user name, when known, is found under `Username`; nothing but the data changes. */
  lemma WithUserEntries(error: Exn, userName: Option<string>)
    ensures var ex := WithUser(error, userName);
      && ex.(data := error.data) == error
      && (userName.Some? ==> FindEntry(ex.data, "Username") == Some(DataEntry("Username", userName)))
      && (userName.None? ==> ex == error)
      && FindEntry(ex.data, "Filename") == FindEntry(error.data, "Filename")
  {
    assert "Username" != "Filename" by { assert "Username"[0] != "Filename"[0]; }
    if userName.Some? {
      SetEntryFinds(error.data, "Username", userName);
    }
  }

  /** The decorated exception is the original with `Filename` and, when known, `Username` set in its data. */
  lemma DecoratedEntries(error: Exn, fileName: string, userName: Option<string>)
    ensures var ex := Decorated(error, fileName, userName);
      && ex.(data := error.data) == error
      && FindEntry(ex.data, "Filename") == Some(DataEntry("Filename", Some(fileName)))
      && (userName.Some? ==> FindEntry(ex.data, "Username") == Some(DataEntry("Username", userName)))
      && (userName.None? ==> FindEntry(ex.data, "Username") == FindEntry(error.data, "Username"))
  {
    var withFile := error.(data := SetEntry(error.data, "Filename", Some(fileName)));
    SetEntryFinds(error.data, "Filename", Some(fileName));
    assert "Username" != "Filename" by { assert "Username"[0] != "Filename"[0]; }
    WithUserEntries(withFile, userName);
  }

  /**
   * What `WriteLogEntryToFile` returns for an attempt: null exactly when the
   * entry was written, which needs the file name to render. When `FileName`
   * throws, the stream is never opened: with the lock taken, the exception is
   * caught, its `Filename` cannot be set and only `Username` is added; after a
   * lock timeout, building the message throws and that exception is returned.
   */
  function AttemptError(c: Config, a: WriteAttempt): (r: Option<Exn>)
    ensures r.None? <==> a.outcome.Written? && GetFileName(c, a.now).Rendered?
  {
    match GetFileName(c, a.now)
    case Thrown(formatError) =>
      if a.outcome.LockTimeout? then Some(formatError) else Some(WithUser(formatError, a.userName))
    case Rendered(fileName) =>
      match a.outcome
      case Written => None
      case IoFailure(error) => Some(Decorated(error, fileName, a.userName))
      case LockTimeout => Some(LockTimeoutError(fileName))
  }

  /**
   * A lock timeout yields the timeout exception naming the file; an I/O failure
   * yields the thrown exception, its message kept, decorated with the file name.
   * A date pattern that cannot be rendered fails every attempt with the
   * formatting exception: as it is after a lock timeout, otherwise carrying
   * the user name but no new `Filename`.
   */
  lemma AttemptErrorCases(c: Config, a: WriteAttempt)
    ensures GetFileName(c, a.now).Rendered? && a.outcome.LockTimeout? ==>
      AttemptError(c, a) == Some(LockTimeoutError(GetFileName(c, a.now).text))
    ensures GetFileName(c, a.now).Rendered? && a.outcome.IoFailure? ==>
      && AttemptError(c, a).Some?
      && AttemptError(c, a).value.message == a.outcome.error.message
      && FindEntry(AttemptError(c, a).value.data, "Filename") == Some(DataEntry("Filename", Some(GetFileName(c, a.now).text)))
      && (a.userName.Some? ==> FindEntry(AttemptError(c, a).value.data, "Username") == Some(DataEntry("Username", a.userName)))
    ensures GetFileName(c, a.now).Thrown? && a.outcome.LockTimeout? ==>
      AttemptError(c, a) == Some(GetFileName(c, a.now).error)
    ensures GetFileName(c, a.now).Thrown? && !a.outcome.LockTimeout? ==>
      var fe := GetFileName(c, a.now).error;
      && AttemptError(c, a).Some?
      && AttemptError(c, a).value.(data := fe.data) == fe
      && FindEntry(AttemptError(c, a).value.data, "Filename") == FindEntry(fe.data, "Filename")
      && (a.userName.Some? ==> FindEntry(AttemptError(c, a).value.data, "Username") == Some(DataEntry("Username", a.userName)))
  {
    match GetFileName(c, a.now)
    case Thrown(fe) =>
      WithUserEntries(fe, a.userName);
    case Rendered(fileName) =>
      if a.outcome.IoFailure? {
        DecoratedEntries(a.outcome.error, fileName, a.userName);
      }
  }

  /** The line written for an entry: its plain-text form when `WriteText` is set, else the element itself. */
  function EntryLine(c: Config, entry: XElement): LogLine {
    if c.writeText then TextLine(PlainText(entry, c.textSeparator)) else XmlLine(entry)
  }

  /** What an attempt adds to the log files: one line, to the file named for its instant, when it succeeded. */
  function AttemptAppends(c: Config, entry: XElement, a: WriteAttempt): (r: seq<FileAppend>)
    ensures |r| <= 1
    ensures |r| == 1 <==> AttemptError(c, a).None?
    ensures |r| == 1 ==> r[0].fileName == GetFileName(c, a.now).text && r[0].line == EntryLine(c, entry)
  {
    if a.outcome.Written? && GetFileName(c, a.now).Rendered? then [FileAppend(GetFileName(c, a.now).text, EntryLine(c, entry))] else []
  }

  /** The results of a run of attempts, in order. */
  function Errors(c: Config, attempts: seq<WriteAttempt>): (r: seq<Option<Exn>>)
    ensures |r| == |attempts|
  {
    if attempts == [] then [] else Errors(c, attempts[..|attempts| - 1]) + [AttemptError(c, attempts[|attempts| - 1])]
  }

  lemma ErrorsSnoc(c: Config, attempts: seq<WriteAttempt>, k: nat)
    requires k < |attempts|
    ensures Errors(c, attempts[..k + 1]) == Errors(c, attempts[..k]) + [AttemptError(c, attempts[k])]
  {
    assert attempts[..k + 1][..k] == attempts[..k];
  }

  /**
   * The event-log guard of `WriteOwnExceptionToEventLog`: an attempt's result
   * is forwarded when it is an exception whose message differs from that of
   * `LastExceptionInBackgroundTask` (or when that is null).
   */
  predicate IsForwarded(ex: Option<Exn>, last: Option<Exn>) {
    ex.Some? && !(last.Some? && ex.value.message == last.value.message)
  }

  /** `LastExceptionInBackgroundTask` after a run of attempts that started from `last`. */
  function Previous(last: Option<Exn>, errors: seq<Option<Exn>>): Option<Exn> {
    if errors == [] then last else errors[|errors| - 1]
  }

  /** What a run of attempts forwards to the event log, in order. */
  function Forwarded(last: Option<Exn>, errors: seq<Option<Exn>>): (r: seq<Exn>)
    ensures |r| <= |errors|
  {
    if errors == [] then []
    else
      var before := errors[..|errors| - 1];
      Forwarded(last, before) + (if IsForwarded(errors[|errors| - 1], Previous(last, before)) then [errors[|errors| - 1].value] else [])
  }

  lemma ForwardedSnoc(last: Option<Exn>, errors: seq<Option<Exn>>, e: Option<Exn>)
    ensures Forwarded(last, errors + [e]) == Forwarded(last, errors) + (if IsForwarded(e, Previous(last, errors)) then [e.value] else [])
    ensures Previous(last, errors + [e]) == e
  {
    assert (errors + [e])[..|errors|] == errors;
  }

  /** Only failures are forwarded: every forwarded exception is the result of one of the attempts. */
  lemma {:induction false} ForwardedAreFailures(last: Option<Exn>, errors: seq<Option<Exn>>)
    ensures forall x :: x in Forwarded(last, errors) ==> Some(x) in errors
  {
    if errors != [] {
      var before := errors[..|errors| - 1];
      ForwardedAreFailures(last, before);
      assert errors == before + [errors[|errors| - 1]];
    }
  }

  /**
   * No flooding: a run of failures that all repeat the message already recorded
   * in `LastExceptionInBackgroundTask` forwards nothing.
   */
  lemma {:induction false} RepeatedFailuresForwardNothing(last: Option<Exn>, errors: seq<Option<Exn>>)
    requires last.Some?
    requires forall i :: 0 <= i < |errors| ==> errors[i].Some? && errors[i].value.message == last.value.message
    ensures Forwarded(last, errors) == []
  {
    if errors != [] {
      RepeatedFailuresForwardNothing(last, errors[..|errors| - 1]);
    }
  }

  /**
   * Within a run of failures the exceptions forwarded to the event log mark
   * the message changes: the first failure when its message is new, then
   * every failure whose message differs from the attempt before it; so two
   * successive forwarded exceptions never carry the same message, and the
   * last one forwarded carries the message of the last failure.
   */
  lemma {:induction false} ForwardedMessagesChange(last: Option<Exn>, errors: seq<Option<Exn>>)
    requires forall i :: 0 <= i < |errors| ==> errors[i].Some?
    ensures var f := Forwarded(last, errors);
      && (forall i :: 0 <= i < |f| - 1 ==> f[i].message != f[i + 1].message)
      && (f != [] ==> f[|f| - 1].message == errors[|errors| - 1].value.message)
  {
    if errors != [] {
      var before := errors[..|errors| - 1];
      var e := errors[|errors| - 1];
      ForwardedMessagesChange(last, before);
      var f0 := Forwarded(last, before);
      if IsForwarded(e, Previous(last, before)) && f0 != [] {
        assert before != [];
        assert f0[|f0| - 1].message == Previous(last, before).value.message;
      }
    }
  }
}
