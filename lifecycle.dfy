/**
 * The logger's lifecycle flags — whether the background task runs,
 * `StopEnqueingNewEntries` and `StopLoggingRequested` — and how `StartLogging`,
 * `StopLogging` and `Enqueue` move them.
 */
module Lifecycles {
  datatype Flags = Flags(started: bool, stopEnqueing: bool, stopRequested: bool)

  /** A running task has no stop flag set, and a stop request always comes with the enqueue stop. */
  predicate Consistent(f: Flags) {
    && (f.started ==> !f.stopEnqueing && !f.stopRequested)
    && (f.stopRequested ==> f.stopEnqueing)
  }

  /** `StopLogging` has taken effect: the background task is gone and the queue takes no more entries. */
  predicate Stopped(f: Flags) {
    !f.started && f.stopEnqueing
  }

  /** `StartLogging`: a no-op when started or when either stop flag is set; otherwise the background task starts. */
  function Start(f: Flags): (r: Flags)
    ensures Consistent(f) ==> Consistent(r)
    ensures r.started
      <==> f.started || (!f.stopEnqueing && !f.stopRequested)
    ensures (f.started || f.stopEnqueing || f.stopRequested) ==> r == f
  {
    if f.started || f.stopEnqueing || f.stopRequested then f
    else Flags(true, false, false)
  }

  /**
   * `StopLogging`: always stops enqueueing; when the background task runs it is asked to
   * stop and then dropped.
   */
  function Stop(f: Flags): (r: Flags)
    ensures Consistent(f) ==> Consistent(r)
    ensures Stopped(r)
    ensures r.stopRequested == (f.started || f.stopRequested)
  {
    if !f.started then f.(stopEnqueing := true)
    else Flags(false, true, true)
  }

  /** The flags after `Enqueue`: it starts logging first unless refused or told to wait for an explicit start. */
  function EnqueueStep(f: Flags, startExplicitly: bool): (r: Flags)
    ensures Consistent(f) ==> Consistent(r)
    ensures f.stopEnqueing || startExplicitly ==> r == f
    ensures !f.stopEnqueing && !startExplicitly ==> r == Start(f)
  {
    if f.stopEnqueing then f
    else if !startExplicitly then Start(f)
    else f
  }

  /** Whether `Enqueue` adds an entry to the queue (capacity permitting). */
  predicate Accepts(f: Flags) {
    !f.stopEnqueing
  }

  datatype Op = StartOp | StopOp | EnqueueOp(startExplicitly: bool)

  function Apply(f: Flags, op: Op): Flags {
    match op
    case StartOp => Start(f)
    case StopOp => Stop(f)
    case EnqueueOp(startExplicitly) => EnqueueStep(f, startExplicitly)
  }

  /** The flags after a sequence of calls, in order. */
  function Run(f: Flags, ops: seq<Op>): Flags
    decreases |ops|
  {
    if ops == [] then f else Run(Apply(f, ops[0]), ops[1..])
  }

  /** Every sequence of calls keeps the flags consistent. */
  lemma {:induction false} RunConsistent(f: Flags, ops: seq<Op>)
    requires Consistent(f)
    ensures Consistent(Run(f, ops))
    decreases |ops|
  {
    if ops != [] {
      RunConsistent(Apply(f, ops[0]), ops[1..]);
    }
  }

  /** Once stopped, no later call starts logging again or lets an entry in. */
  lemma {:induction false} StoppedStaysStopped(f: Flags, ops: seq<Op>)
    requires Stopped(f)
    ensures Stopped(Run(f, ops)) && !Accepts(Run(f, ops))
    decreases |ops|
  {
    if ops != [] {
      StoppedStaysStopped(Apply(f, ops[0]), ops[1..]);
    }
  }

  /** Stop is final: whatever happened before and whatever follows a `StopLogging`, logging stays off. */
  lemma StopIsFinal(f: Flags, before: seq<Op>, after: seq<Op>)
    ensures var g := Run(f, before + [StopOp] + after);
      !g.started && !Accepts(g)
  {
    RunAppend(f, before, [StopOp] + after);
    assert before + [StopOp] + after == before + ([StopOp] + after);
    var g := Run(f, before);
    assert Run(g, [StopOp] + after) == Run(Stop(g), after);
    StoppedStaysStopped(Stop(g), after);
  }

  lemma {:induction false} RunAppend(f: Flags, a: seq<Op>, b: seq<Op>)
    ensures Run(f, a + b) == Run(Run(f, a), b)
    decreases |a|
  {
    if a != [] {
      assert (a + b)[0] == a[0] && (a + b)[1..] == a[1..] + b;
      RunAppend(Apply(f, a[0]), a[1..], b);
    } else {
      assert a + b == b;
    }
  }

  /** Without a `StopLogging`, no stop flag is ever set. */
  lemma {:induction false} NoStopNoFlags(f: Flags, ops: seq<Op>)
    requires !f.stopEnqueing && !f.stopRequested
    requires forall i :: 0 <= i < |ops| ==> ops[i] != StopOp
    ensures !Run(f, ops).stopEnqueing && !Run(f, ops).stopRequested
    decreases |ops|
  {
    if ops != [] {
      NoStopNoFlags(Apply(f, ops[0]), ops[1..]);
    }
  }

  /**
   * From the initial flags, whatever starts and enqueues came first, an
   * auto-starting `Enqueue` leaves logging started as long as no
   * `StopLogging` was called.
   */
  lemma FirstEnqueueStarts(ops: seq<Op>)
    requires forall i :: 0 <= i < |ops| ==> ops[i] != StopOp
    ensures Run(Flags(false, false, false), ops + [EnqueueOp(false)]).started
  {
    var f := Flags(false, false, false);
    RunAppend(f, ops, [EnqueueOp(false)]);
    NoStopNoFlags(f, ops);
    assert Run(Run(f, ops), [EnqueueOp(false)]) == EnqueueStep(Run(f, ops), false);
  }
}
