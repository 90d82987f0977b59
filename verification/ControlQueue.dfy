/** The control queue of one session (internal/cluster/control.go): an initial lane, a
    deferred lane, a flush barrier, a bounded queue with one reserved slot and a final
    message, drained by one worker. Every lock-protected section is one step, and so is
    every action of the worker, so a run is any interleaving of callers and worker. */
module ControlQueue {
  import opened Results
  import opened Sessions

  datatype Message = Message(id: nat)

  datatype Command = Deliver(message: Message) | Barrier | Final(message': Option<Message>)

  datatype Reply = Accepted | ControlClosed | InvalidState | Overflow

  // ----- the locked sections -----

  datatype Queue = Queue(
    commands: seq<Command>, deferred: seq<Message>, limit: nat,
    closed: bool, committing: bool, stopped: bool)

  /** failLocked, and stopLocked once it has closed the stop channel. */
  function Stop(q: Queue): Queue { q.(closed := true, stopped := true, deferred := []) }

  function Fail(q: Queue): Queue { if q.stopped then q else Stop(q) }

  function Enqueue(q: Queue, c: Command, reserved: bool): (Queue, Reply) {
    if !reserved && |q.commands| >= q.limit then (Fail(q), Overflow)
    else if |q.commands| < q.limit + 1 then (q.(commands := q.commands + [c]), Accepted)
    else (Fail(q), Overflow)
  }

  function InitialSection(q: Queue, life: Life, m: Message): (Queue, Reply) {
    if q.closed then (q, ControlClosed)
    else if life != Syncing || q.committing then (q, InvalidState)
    else Enqueue(q, Deliver(m), false)
  }

  function SendSection(q: Queue, life: Life, m: Message): (Queue, Reply) {
    if q.closed then (q, ControlClosed)
    else match life
      case Syncing =>
        if |q.deferred| >= q.limit then (Fail(q), Overflow)
        else (q.(deferred := q.deferred + [m]), Accepted)
      case Active => Enqueue(q, Deliver(m), false)
      case _ => (q, InvalidState)
  }

  function BarrierSection(q: Queue, life: Life): (Queue, Reply) {
    if q.closed || life != Syncing || q.committing then (q, InvalidState)
    else Enqueue(q.(committing := true), Barrier, true)
  }

  function Splice(q: Queue, ms: seq<Message>): (Queue, Reply)
    decreases |ms|
  {
    if ms == [] then (q, Accepted)
    else
      var (q', r) := Enqueue(q, Deliver(ms[0]), false);
      if r != Accepted then (q', r) else Splice(q', ms[1..])
  }

  /** The second half of a commit; on Accepted the session becomes Active. */
  function SpliceSection(q: Queue, life: Life): (Queue, Reply) {
    var q0 := q.(committing := false);
    if life != Syncing || q.closed then (q0, InvalidState)
    else
      var (q', r) := Splice(q0, q.deferred);
      if r != Accepted then (q', r) else (q'.(deferred := []), Accepted)
  }

  function CloseSection(q: Queue, life: Life, final: Option<Message>): (Queue, Reply) {
    if q.closed || life == Closed then (q, ControlClosed)
    else Enqueue(q.(closed := true, deferred := []), Final(final), true)
  }

  // ----- the whole session -----

  /** Took and Writing still have the command to carry out, Flushing has written its
      message, Failing has seen an error and not yet taken the lock. */
  datatype Worker = Idle | Took(c: Command) | Writing(c: Command) | Flushing(c: Command) | Failing | Exited

  datatype Commit = NotStarted | Waiting | Confirmed | Ended

  /** `life` is the registry's state of the binding; Closed also stands for unbound. */
  datatype Session = Session(
    life: Life, attached: bool, q: Queue, worker: Worker, commit: Commit,
    // What has happened so far: accepted initial messages and sends, the final message an
    // accepted close came with, everything queued for delivery, everything written, whether
    // the session ever became Active and whether the barrier was flushed.
    initial: seq<Message>, sends: seq<Message>, farewell: Option<Message>, queued: seq<Message>,
    wire: seq<Message>, finals: nat, activated: bool, flushed: bool)

  function Start(limit: nat): Session {
    Session(Syncing, true, Queue([], [], limit, false, false, false), Idle, NotStarted,
            [], [], None, [], [], 0, false, false)
  }

  datatype Step =
    | SendInitial(m: Message) | Send(m: Message)
    | BeginCommit | ConfirmCommit | CommitTimeout | FinishCommit
    | Close(final: Option<Message>) | CloseTimeout | Take | Abort
    | RegistryClose | RegistryUnbind | BareActivate
    | WorkerTake | WorkerCheck | WorkerWrite(ok: bool) | WorkerFlush(ok: bool) | WorkerFail | WorkerStop

  function AfterInitial(s: Session, m: Message): Session {
    var (q, r) := InitialSection(s.q, s.life, m);
    if r == Accepted then s.(q := q, initial := s.initial + [m], queued := s.queued + [m]) else s.(q := q)
  }

  function AfterSend(s: Session, m: Message): Session {
    var (q, r) := SendSection(s.q, s.life, m);
    if r != Accepted then s.(q := q)
    else if s.life == Active then s.(q := q, sends := s.sends + [m], queued := s.queued + [m])
    else s.(q := q, sends := s.sends + [m])
  }

  function AfterBarrier(s: Session): Session {
    var (q, r) := BarrierSection(s.q, s.life);
    if r == Accepted then s.(q := q, commit := Waiting) else s.(q := q)
  }

  function AfterSplice(s: Session): Session {
    var (q, r) := SpliceSection(s.q, s.life);
    if r == Accepted
    then s.(q := q, life := Active, commit := Ended, queued := s.queued + s.q.deferred, activated := true)
    else s.(q := q, commit := Ended)
  }

  function AfterClose(s: Session, final: Option<Message>): Session {
    var (q, r) := CloseSection(s.q, s.life, final);
    if r == Accepted then s.(q := q, farewell := final) else s.(q := q)
  }

  function Next(s: Session, step: Step): Option<Session> {
    var bound := s.attached && s.life != Closed;
    match step
    case SendInitial(m) => if bound then Some(AfterInitial(s, m)) else None
    case Send(m) => if bound then Some(AfterSend(s, m)) else None
    case BeginCommit => if bound then Some(AfterBarrier(s)) else None
    case ConfirmCommit => if s.commit == Waiting && s.flushed then Some(s.(commit := Confirmed)) else None
    case CommitTimeout => if s.commit == Waiting then Some(s.(q := Fail(s.q), commit := Ended)) else None
    case FinishCommit => if s.commit == Confirmed then Some(AfterSplice(s)) else None
    case Close(final) => if bound then Some(AfterClose(s, final)) else None
    case CloseTimeout => if s.q.closed then Some(s.(q := Fail(s.q))) else None
    case Take => Some(s.(attached := false))
    case Abort => Some(s.(q := Stop(s.q)))
    case RegistryClose => if s.life == Syncing || s.life == Active then Some(s.(life := Closing)) else None
    case RegistryUnbind => Some(s.(life := Closed))
    case BareActivate => if s.life == Syncing then Some(s.(life := Active, activated := !s.q.closed)) else None
    case WorkerTake => if s.worker == Idle && s.q.commands != [] then Some(Taken(s)) else None
    case WorkerCheck => if s.worker.Took? then Some(Checked(s)) else None
    case WorkerWrite(ok) => if s.worker.Writing? then Some(Write(s, ok)) else None
    case WorkerFlush(ok) => if s.worker.Flushing? then Some(Flush(s, ok)) else None
    case WorkerFail => if s.worker == Failing then Some(s.(worker := Exited, q := Fail(s.q))) else None
    case WorkerStop => if s.worker == Idle && s.q.stopped then Some(s.(worker := Exited)) else None
  }

  function Taken(s: Session): Session
    requires s.q.commands != []
  {
    s.(worker := Took(s.q.commands[0]), q := s.q.(commands := s.q.commands[1..]))
  }

  /** After receiving a command the worker looks at the stop channel once more. */
  function Checked(s: Session): Session
    requires s.worker.Took?
  {
    s.(worker := if s.q.stopped then Exited else Writing(s.worker.c))
  }

  /** WriteControl, if the command carries a message; an error means nothing was written. */
  function Write(s: Session, ok: bool): Session
    requires s.worker.Writing?
  {
    match s.worker.c
    case Deliver(m) => if ok then s.(worker := Idle, wire := s.wire + [m]) else s.(worker := Failing)
    case Barrier => s.(worker := Flushing(Barrier))
    case Final(None) => s.(worker := Flushing(s.worker.c))
    case Final(Some(m)) =>
      if ok then s.(worker := Flushing(s.worker.c), wire := s.wire + [m], finals := s.finals + 1)
      else s.(worker := Failing)
  }

  function Flush(s: Session, ok: bool): Session
    requires s.worker.Flushing?
  {
    if !ok then s.(worker := Failing)
    else if s.worker.c.Barrier? then s.(worker := Idle, flushed := true)
    else s.(worker := Exited)
  }

  /** A run, and the caller's obligation on it: a session with deferred messages is
      activated only by committing its sync. */
  ghost predicate IsRun(s: Session, steps: seq<Step>, t: Session)
    decreases |steps|
  {
    if steps == [] then s == t
    else Next(s, steps[0]).Some? && IsRun(Next(s, steps[0]).value, steps[1..], t)
  }

  ghost predicate Orderly(s: Session, steps: seq<Step>)
    decreases |steps|
  {
    steps == [] ||
    ((steps[0] == BareActivate ==> s.q.deferred == []) &&
     (Next(s, steps[0]).Some? ==> Orderly(Next(s, steps[0]).value, steps[1..])))
  }

  // ----- the invariant -----

  function InHand(w: Worker): seq<Command> {
    if w.Took? || w.Writing? || w.Flushing? then [w.c] else []
  }

  /** What the worker still has before it, the command in its hand first. */
  function Pipeline(s: Session): seq<Command> { InHand(s.worker) + s.q.commands }

  function Messages(cs: seq<Command>): seq<Message> {
    if cs == [] then []
    else (if cs[0].Deliver? then [cs[0].message] else []) + Messages(cs[1..])
  }

  predicate Dead(w: Worker) { w == Failing || w == Exited }

  /** Lanes: while syncing the sends wait in the deferred lane; once active everything
      accepted has been queued, initial messages first. */
  predicate LanesInv(s: Session) {
    && s.queued == s.initial + (if s.activated then s.sends else [])
    && s.q.deferred == (if s.q.closed || s.activated then [] else s.sends)
    && (s.life == Active ==> s.activated || s.q.closed)
    && (s.life == Syncing ==> !s.activated)
    && (s.q.stopped ==> s.q.closed)
  }

  predicate CapacityInv(s: Session) {
    |s.q.commands| <= s.q.limit + 1 && |s.q.deferred| <= s.q.limit && s.q.limit >= 1
  }

  /** The final command is queued at most once, closes the queue, comes last and carries the
      message given to the close. */
  predicate FinalInv(s: Session) {
    && (forall i :: 0 <= i < |Pipeline(s)| && Pipeline(s)[i].Final? ==>
          s.q.closed && i == |Pipeline(s)| - 1 && Pipeline(s)[i].message' == s.farewell)
    && (s.worker.Flushing? ==> !s.worker.c.Deliver?)
  }

  /** Without a final message the wire is a prefix of what was queued, and as long as the
      worker lives the rest is exactly what it still has before it. */
  predicate WireInv(s: Session) {
    && s.finals <= 1
    && (s.finals == 0 ==> s.wire <= s.queued && (!Dead(s.worker) ==> s.wire + Messages(Pipeline(s)) == s.queued))
    && (s.finals == 1 ==>
          && s.q.closed && s.farewell.Some? && s.wire == s.queued + [s.farewell.value]
          && (Dead(s.worker) || (s.worker.Flushing? && s.worker.c.Final? && s.q.commands == [])))
  }

  /** While syncing, the barrier is behind everything queued, and once it is confirmed
      nothing is left before the worker. */
  predicate BarrierInv(s: Session) {
    && (s.commit == NotStarted ==> !s.flushed && forall i :: 0 <= i < |Pipeline(s)| ==> !Pipeline(s)[i].Barrier?)
    && (s.commit == Confirmed ==> s.flushed)
    && (s.life == Syncing && !s.q.closed ==>
          && (s.q.committing <==> s.commit != NotStarted)
          && s.commit != Ended
          && (s.commit != NotStarted && s.flushed ==> s.worker == Idle && s.q.commands == [])
          && (s.commit != NotStarted && !s.flushed && !Dead(s.worker) ==>
                && Pipeline(s) != [] && Pipeline(s)[|Pipeline(s)| - 1] == Barrier
                && forall i :: 0 <= i < |Pipeline(s)| - 1 ==> !Pipeline(s)[i].Barrier?))
  }

  predicate Inv(s: Session) {
    LanesInv(s) && CapacityInv(s) && FinalInv(s) && WireInv(s) && BarrierInv(s)
  }

  lemma {:induction false} MessagesAppend(a: seq<Command>, b: seq<Command>)
    ensures Messages(a + b) == Messages(a) + Messages(b)
  {
    if a == [] {
      assert a + b == b;
      assert [] + Messages(b) == Messages(b);
    } else {
      assert (a + b)[1..] == a[1..] + b;
      MessagesAppend(a[1..], b);
      var first := if a[0].Deliver? then [a[0].message] else [];
      assert Messages(a + b) == first + (Messages(a[1..]) + Messages(b));
      assert first + (Messages(a[1..]) + Messages(b)) == first + Messages(a[1..]) + Messages(b);
    }
  }

  lemma MessagesOne(c: Command)
    ensures Messages([c]) == if c.Deliver? then [c.message] else []
  {
    assert [c][1..] == [];
  }

  /** Queueing one more command extends what is before the worker by just that command. */
  lemma PipelineSnoc(s: Session, t: Session, c: Command)
    requires t.worker == s.worker && t.q.commands == s.q.commands + [c]
    ensures Pipeline(t) == Pipeline(s) + [c]
    ensures Messages(Pipeline(t)) == Messages(Pipeline(s)) + if c.Deliver? then [c.message] else []
  {
    assert Pipeline(t) == Pipeline(s) + [c];
    MessagesAppend(Pipeline(s), [c]);
    MessagesOne(c);
  }

  lemma StepSendInitial(s: Session, m: Message)
    requires Inv(s)
    ensures Inv(AfterInitial(s, m))
  {
    hide Messages;
    var t := AfterInitial(s, m);
    if InitialSection(s.q, s.life, m).1 == Accepted {
      PipelineSnoc(s, t, Deliver(m));
    } else {
      assert Pipeline(t) == Pipeline(s);
    }
  }

  lemma StepSend(s: Session, m: Message)
    requires Inv(s)
    ensures Inv(AfterSend(s, m))
  {
    hide Messages;
    var t := AfterSend(s, m);
    if SendSection(s.q, s.life, m).1 == Accepted && s.life == Active {
      PipelineSnoc(s, t, Deliver(m));
      assert s.initial + s.sends + [m] == s.initial + (s.sends + [m]);
    } else {
      assert Pipeline(t) == Pipeline(s);
    }
  }

  lemma StepBeginCommit(s: Session)
    requires Inv(s)
    ensures Inv(AfterBarrier(s))
  {
    hide Messages;
    var t := AfterBarrier(s);
    if BarrierSection(s.q, s.life).1 == Accepted {
      PipelineSnoc(s, t, Barrier);
    } else {
      assert Pipeline(t) == Pipeline(s);
    }
  }

  lemma StepClose(s: Session, final: Option<Message>)
    requires Inv(s)
    ensures Inv(AfterClose(s, final))
  {
    hide Messages;
    var t := AfterClose(s, final);
    if CloseSection(s.q, s.life, final).1 == Accepted {
      PipelineSnoc(s, t, Final(final));
    } else {
      assert Pipeline(t) == Pipeline(s);
    }
  }

  /** The splice of a commit: nothing is queued, everything deferred fits. */
  lemma {:induction false} SpliceFits(q: Queue, ms: seq<Message>)
    requires |q.commands| + |ms| <= q.limit
    ensures Splice(q, ms) == (q.(commands := q.commands + Delivers(ms)), Accepted)
    decreases |ms|
  {
    if ms == [] {
      assert q.commands + Delivers(ms) == q.commands;
    } else {
      SpliceFits(q.(commands := q.commands + [Deliver(ms[0])]), ms[1..]);
      assert q.commands + [Deliver(ms[0])] + Delivers(ms[1..]) == q.commands + Delivers(ms);
    }
  }

  function Delivers(ms: seq<Message>): seq<Command> {
    seq(|ms|, i requires 0 <= i < |ms| => Deliver(ms[i]))
  }

  lemma {:induction false} MessagesOfDelivers(ms: seq<Message>)
    ensures Messages(Delivers(ms)) == ms
  {
    if ms != [] {
      assert Delivers(ms)[1..] == Delivers(ms[1..]);
      MessagesOfDelivers(ms[1..]);
    }
  }

  /** Committing never overflows: when the splice happens, the queue is empty, the worker is
      idle, and what was deferred becomes exactly the queue. */
  lemma CommitNeverOverflows(s: Session)
    requires Inv(s) && s.commit == Confirmed && s.life == Syncing && !s.q.closed
    ensures s.q.commands == [] && s.worker == Idle && |s.q.deferred| <= s.q.limit
    ensures SpliceSection(s.q, s.life) ==
            (s.q.(commands := Delivers(s.q.deferred), deferred := [], committing := false), Accepted)
  {
    SpliceFits(s.q.(committing := false), s.q.deferred);
    assert [] + Delivers(s.q.deferred) == Delivers(s.q.deferred);
    hide Splice;
  }

  lemma StepSpliced(s: Session)
    requires Inv(s) && s.commit == Confirmed && s.life == Syncing && !s.q.closed
    ensures Inv(AfterSplice(s))
  {
    hide Messages, SpliceSection;
    var t := AfterSplice(s);
    CommitNeverOverflows(s);
    MessagesOfDelivers(s.q.deferred);
    MessagesNil();
    assert Pipeline(s) == [] && Pipeline(t) == Delivers(s.q.deferred);
    hide Pipeline, InHand;
    assert s.wire + [] == s.wire;
  }

  lemma StepNotSpliced(s: Session)
    requires Inv(s) && s.commit == Confirmed && (s.life != Syncing || s.q.closed)
    ensures Inv(AfterSplice(s))
  {
    hide Messages, Splice;
    assert Pipeline(AfterSplice(s)) == Pipeline(s);
    hide Pipeline, InHand;
  }

  lemma MessagesNil()
    ensures Messages([]) == []
  {}

  lemma StepQueueStops(s: Session, step: Step)
    requires step == CommitTimeout || step == CloseTimeout || step == Abort
    requires Inv(s) && Next(s, step).Some?
    ensures Inv(Next(s, step).value)
  {
    hide Messages, AfterInitial, AfterSend, AfterBarrier, AfterSplice, AfterClose, Write, Flush, Taken, Checked;
    assert Pipeline(Next(s, step).value) == Pipeline(s);
    hide Pipeline;
  }

  lemma StepWorkerEnds(s: Session, step: Step)
    requires step == WorkerFail || step == WorkerStop
    requires Inv(s) && Next(s, step).Some?
    ensures Inv(Next(s, step).value)
  {
    hide Messages, AfterInitial, AfterSend, AfterBarrier, AfterSplice, AfterClose, Write, Flush, Taken, Checked;
    assert Pipeline(Next(s, step).value) == Pipeline(s);
    hide Pipeline;
  }

  lemma StepOutside(s: Session, step: Step)
    requires step == ConfirmCommit || step == Take || step == RegistryClose || step == RegistryUnbind
      || step == BareActivate
    requires Inv(s) && Next(s, step).Some?
    requires step == BareActivate ==> s.q.deferred == []
    ensures Inv(Next(s, step).value)
  {
    hide Messages, AfterInitial, AfterSend, AfterBarrier, AfterSplice, AfterClose, Write, Flush, Taken, Checked;
    assert Pipeline(Next(s, step).value) == Pipeline(s);
    hide Pipeline;
  }

  lemma StepWorkerTake(s: Session)
    requires Inv(s) && s.worker == Idle && s.q.commands != []
    ensures Inv(Taken(s))
  {
    hide Messages;
    var t := Taken(s);
    assert Pipeline(t) == s.q.commands == Pipeline(s);
    hide Pipeline, InHand;
  }

  lemma StepWorkerCheck(s: Session)
    requires Inv(s) && s.worker.Took?
    ensures Inv(Checked(s))
  {
    hide Messages;
    var t := Checked(s);
    if s.q.stopped {
      assert Pipeline(t) == Pipeline(s)[1..];
    } else {
      assert Pipeline(t) == Pipeline(s);
    }
    hide Pipeline, InHand;
  }

  /** The command in hand is done with; it was the last one if it was final. */
  lemma HandDone(s: Session)
    requires FinalInv(s) && (s.worker.Writing? || s.worker.Flushing?)
    ensures Pipeline(s) != [] && Pipeline(s)[0] == s.worker.c && Pipeline(s)[1..] == s.q.commands
    ensures Messages(Pipeline(s)) == (if s.worker.c.Deliver? then [s.worker.c.message] else []) + Messages(s.q.commands)
    ensures s.worker.c.Final? ==> s.q.commands == [] && s.q.closed && Messages(Pipeline(s)) == []
  {
    MessagesAppend(InHand(s.worker), s.q.commands);
    MessagesOne(s.worker.c);
  }

  lemma StepWriteDeliver(s: Session, ok: bool)
    requires Inv(s) && s.worker.Writing? && s.worker.c.Deliver?
    ensures Inv(Write(s, ok))
  {
    hide Messages;
    var t, m := Write(s, ok), s.worker.c.message;
    HandDone(s);
    assert Pipeline(t) == s.q.commands;
    hide Pipeline, InHand;
    assert s.wire + ([m] + Messages(s.q.commands)) == s.wire + [m] + Messages(s.q.commands);
    assert s.wire + [m] <= s.queued;
  }

  lemma StepWriteFinal(s: Session, ok: bool)
    requires Inv(s) && s.worker.Writing? && s.worker.c.Final?
    ensures Inv(Write(s, ok))
  {
    hide Messages;
    var t := Write(s, ok);
    HandDone(s);
    if t.worker.Flushing? {
      assert Pipeline(t) == Pipeline(s);
    } else {
      assert Pipeline(t) == [];
    }
    hide Pipeline, InHand;
    assert s.wire + [] == s.wire;
  }

  lemma StepWriteBarrier(s: Session, ok: bool)
    requires Inv(s) && s.worker.Writing? && s.worker.c.Barrier?
    ensures Inv(Write(s, ok))
  {
    hide Messages;
    assert Pipeline(Write(s, ok)) == Pipeline(s);
    hide Pipeline, InHand;
  }

  lemma StepFlushBarrier(s: Session, ok: bool)
    requires Inv(s) && s.worker.Flushing? && s.worker.c.Barrier?
    ensures Inv(Flush(s, ok))
  {
    hide Messages;
    HandDone(s);
    var t := Flush(s, ok);
    assert Pipeline(t) == s.q.commands;
    hide Pipeline, InHand, Flush;
    assert t == s.(worker := t.worker, flushed := t.flushed);
    assert t.worker == Failing || (t.worker == Idle && t.flushed);
    assert [] + Messages(s.q.commands) == Messages(s.q.commands);
  }

  lemma StepFlushFinal(s: Session, ok: bool)
    requires Inv(s) && s.worker.Flushing? && s.worker.c.Final?
    ensures Inv(Flush(s, ok))
  {
    hide Messages;
    HandDone(s);
    assert Pipeline(Flush(s, ok)) == [];
    hide Pipeline, InHand;
  }

  lemma FlushingNeverDelivers(s: Session)
    requires Inv(s) && s.worker.Flushing?
    ensures !s.worker.c.Deliver?
  {}

  lemma StepKeepsInv(s: Session, step: Step)
    requires Inv(s) && Next(s, step).Some?
    requires step == BareActivate ==> s.q.deferred == []
    ensures Inv(Next(s, step).value)
  {
    hide Inv, AfterInitial, AfterSend, AfterBarrier, AfterSplice, AfterClose, Write, Flush, Taken, Checked;
    match step {
      case SendInitial(m) => StepSendInitial(s, m);
      case Send(m) => StepSend(s, m);
      case BeginCommit => StepBeginCommit(s);
      case FinishCommit =>
        if s.life == Syncing && !s.q.closed {
          StepSpliced(s);
        } else {
          StepNotSpliced(s);
        }
      case Close(final) => StepClose(s, final);
      case WorkerTake => StepWorkerTake(s);
      case WorkerCheck => StepWorkerCheck(s);
      case WorkerWrite(ok) =>
        if s.worker.c.Deliver? {
          StepWriteDeliver(s, ok);
        } else if s.worker.c.Final? {
          StepWriteFinal(s, ok);
        } else {
          StepWriteBarrier(s, ok);
        }
      case WorkerFlush(ok) =>
        assert !s.worker.c.Deliver? by { FlushingNeverDelivers(s); }
        if s.worker.c.Barrier? {
          StepFlushBarrier(s, ok);
        } else {
          StepFlushFinal(s, ok);
        }
      case CommitTimeout => StepQueueStops(s, step);
      case CloseTimeout => StepQueueStops(s, step);
      case Abort => StepQueueStops(s, step);
      case WorkerFail => StepWorkerEnds(s, step);
      case WorkerStop => StepWorkerEnds(s, step);
      case _ => StepOutside(s, step);
    }
  }

  // ----- every run -----

  lemma StartInv(limit: nat)
    requires limit >= 1
    ensures Inv(Start(limit))
  {}

  lemma {:induction false} RunKeepsInv(s: Session, steps: seq<Step>, t: Session)
    requires Inv(s) && IsRun(s, steps, t) && Orderly(s, steps)
    ensures Inv(t)
    decreases |steps|
  {
    hide Inv, Next;
    if steps != [] {
      StepKeepsInv(s, steps[0]);
      RunKeepsInv(Next(s, steps[0]).value, steps[1..], t);
    }
  }

  /** What the peer may ever see: a prefix of the initial messages followed by the sends in
      the order they were accepted, or all that was queued and then, once, the message given
      to the accepted close. Only a session that became Active ever queues its sends. */
  ghost predicate WireInOrder(s: Session) {
    && s.queued == s.initial + (if s.activated then s.sends else [])
    && s.queued <= s.initial + s.sends
    && (s.finals == 0 ==> s.wire <= s.queued)
    && (s.finals != 0 ==> s.finals == 1 && s.farewell.Some? && s.wire == s.queued + [s.farewell.value])
  }

  /** A session made Active by its commit had its barrier flushed behind every initial
      message, and all of those are on the wire. */
  predicate BarrierFirst(s: Session) {
    s.activated ==> s.flushed && s.initial <= s.wire
  }

  lemma SpliceBehindBarrier(s: Session)
    requires Inv(s) && s.commit == Confirmed && s.life == Syncing && !s.q.closed
    ensures BarrierFirst(AfterSplice(s))
  {
    CommitNeverOverflows(s);
    assert Pipeline(s) == [];
    MessagesNil();
    assert s.wire + [] == s.wire;
    hide SpliceSection, Messages, Pipeline;
  }

  lemma SectionsKeepBarrierFirst(s: Session, m: Message, final: Option<Message>)
    requires Inv(s) && BarrierFirst(s)
    ensures BarrierFirst(AfterInitial(s, m)) && BarrierFirst(AfterSend(s, m)) && BarrierFirst(AfterBarrier(s))
    ensures BarrierFirst(AfterClose(s, final)) && (s.life != Syncing || s.q.closed ==> BarrierFirst(AfterSplice(s)))
  {
    hide Enqueue, Splice, FinalInv, WireInv, BarrierInv, CapacityInv;
  }

  lemma WorkerKeepsBarrierFirst(s: Session, ok: bool)
    requires BarrierFirst(s)
    ensures s.worker == Idle && s.q.commands != [] ==> BarrierFirst(Taken(s))
    ensures s.worker.Took? ==> BarrierFirst(Checked(s))
    ensures s.worker.Writing? ==> BarrierFirst(Write(s, ok))
    ensures s.worker.Flushing? ==> BarrierFirst(Flush(s, ok))
  {}

  lemma BarrierFirstStep(s: Session, step: Step)
    requires Inv(s) && BarrierFirst(s) && step != BareActivate && Next(s, step).Some?
    ensures BarrierFirst(Next(s, step).value)
  {
    hide Inv, AfterInitial, AfterSend, AfterBarrier, AfterSplice, AfterClose, Write, Flush, Taken, Checked, Fail, Stop;
    match step {
      case SendInitial(m) => SectionsKeepBarrierFirst(s, m, None);
      case Send(m) => SectionsKeepBarrierFirst(s, m, None);
      case BeginCommit => SectionsKeepBarrierFirst(s, Message(0), None);
      case Close(final) => SectionsKeepBarrierFirst(s, Message(0), final);
      case FinishCommit =>
        if s.life == Syncing && !s.q.closed {
          SpliceBehindBarrier(s);
        } else {
          SectionsKeepBarrierFirst(s, Message(0), None);
        }
      case WorkerTake => WorkerKeepsBarrierFirst(s, true);
      case WorkerCheck => WorkerKeepsBarrierFirst(s, true);
      case WorkerWrite(ok) => WorkerKeepsBarrierFirst(s, ok);
      case WorkerFlush(ok) => WorkerKeepsBarrierFirst(s, ok);
      case _ =>
    }
  }

  lemma {:induction false} BarrierAlwaysFirst(s: Session, steps: seq<Step>, t: Session)
    requires Inv(s) && BarrierFirst(s) && IsRun(s, steps, t)
    requires forall i :: 0 <= i < |steps| ==> steps[i] != BareActivate
    ensures BarrierFirst(t)
    decreases |steps|
  {
    hide Inv, Next, BarrierFirst;
    if steps != [] {
      BarrierFirstStep(s, steps[0]);
      StepKeepsInv(s, steps[0]);
      BarrierAlwaysFirst(Next(s, steps[0]).value, steps[1..], t);
    }
  }

  /** In every interleaving, from a fresh session, the wire is in order. Without activations
      around the queue nothing that was deferred is written before the barrier is flushed, and
      then every initial message is already on the wire. */
  lemma WireAlwaysInOrder(limit: nat, steps: seq<Step>, t: Session)
    requires limit >= 1 && IsRun(Start(limit), steps, t) && Orderly(Start(limit), steps)
    ensures WireInOrder(t)
    ensures BareActivate !in steps && t.activated ==> t.flushed && t.initial <= t.wire
    ensures BareActivate !in steps && t.finals == 0 && |t.wire| > |t.initial| ==> t.flushed
  {
    StartInv(limit);
    RunKeepsInv(Start(limit), steps, t);
    if BareActivate !in steps {
      BarrierAlwaysFirst(Start(limit), steps, t);
    }
  }

  /** Once the final message is written, or the worker is gone, nothing is written again. */
  predicate Silent(s: Session) {
    s.worker == Exited || s.worker == Failing || (s.worker.Flushing? && s.worker.c.Final?)
  }

  lemma {:induction false} SilentForever(s: Session, steps: seq<Step>, t: Session)
    requires Silent(s) && IsRun(s, steps, t)
    ensures Silent(t) && t.wire == s.wire && t.finals == s.finals
    decreases |steps|
  {
    if steps != [] {
      var u := Next(s, steps[0]).value;
      SilentStep(s, steps[0]);
      hide Next, Silent;
      SilentForever(u, steps[1..], t);
    }
  }

  lemma SilentStep(s: Session, step: Step)
    requires Silent(s) && Next(s, step).Some?
    ensures var u := Next(s, step).value; Silent(u) && u.wire == s.wire && u.finals == s.finals
  {
    hide AfterInitial, AfterSend, AfterBarrier, AfterSplice, AfterClose, Fail, Stop, Write, Taken, Checked;
    match step {
      case SendInitial(m) => SectionsDoNotWrite(s, m, None);
      case Send(m) => SectionsDoNotWrite(s, m, None);
      case BeginCommit => SectionsDoNotWrite(s, Message(0), None);
      case FinishCommit => SectionsDoNotWrite(s, Message(0), None);
      case Close(final) => SectionsDoNotWrite(s, Message(0), final);
      case _ =>
    }
  }

  predicate SameWire(s: Session, t: Session) { t.worker == s.worker && t.wire == s.wire && t.finals == s.finals }

  lemma SectionsDoNotWrite(s: Session, m: Message, final: Option<Message>)
    ensures SameWire(s, AfterInitial(s, m)) && SameWire(s, AfterSend(s, m)) && SameWire(s, AfterBarrier(s))
    ensures SameWire(s, AfterSplice(s)) && SameWire(s, AfterClose(s, final))
  {
    hide InitialSection, SendSection, BarrierSection, SpliceSection, CloseSection;
  }

  lemma NothingAfterFinal(limit: nat, before: seq<Step>, s: Session, after: seq<Step>, t: Session)
    requires limit >= 1 && IsRun(Start(limit), before, s) && Orderly(Start(limit), before)
    requires s.finals == 1 && IsRun(s, after, t)
    ensures t.wire == s.wire
  {
    StartInv(limit);
    RunKeepsInv(Start(limit), before, s);
    SilentForever(s, after, t);
  }

  /** Closing while syncing drops every deferred send for good: none is ever queued. */
  lemma CloseWhileSyncingDropsSends(s: Session, final: Option<Message>, after: seq<Step>, t: Session)
    requires Inv(s) && s.life == Syncing && !s.q.closed
    requires IsRun(AfterClose(s, final), after, t)
    ensures t.queued == s.initial && t.sends == s.sends && t.initial == s.initial
    ensures AfterClose(s, final).q.deferred == []
  {
    ClosedForever(AfterClose(s, final), after, t);
  }

  lemma {:induction false} ClosedForever(s: Session, steps: seq<Step>, t: Session)
    requires s.q.closed && IsRun(s, steps, t)
    ensures t.q.closed && t.queued == s.queued && t.sends == s.sends && t.initial == s.initial
    decreases |steps|
  {
    if steps != [] {
      ClosedStep(s, steps[0]);
      hide Next;
      ClosedForever(Next(s, steps[0]).value, steps[1..], t);
    }
  }

  lemma ClosedStep(s: Session, step: Step)
    requires s.q.closed && Next(s, step).Some?
    ensures var u := Next(s, step).value;
            u.q.closed && u.queued == s.queued && u.sends == s.sends && u.initial == s.initial
  {
    hide AfterInitial, AfterSend, AfterBarrier, AfterSplice, AfterClose;
    match step {
      case SendInitial(m) => ClosedRefuses(s, m, None);
      case Send(m) => ClosedRefuses(s, m, None);
      case BeginCommit => ClosedRefuses(s, Message(0), None);
      case FinishCommit => ClosedRefuses(s, Message(0), None);
      case Close(final) => ClosedRefuses(s, Message(0), final);
      case _ =>
    }
  }

  lemma ClosedRefuses(s: Session, m: Message, final: Option<Message>)
    requires s.q.closed
    ensures AfterInitial(s, m) == s && AfterSend(s, m) == s && AfterBarrier(s) == s && AfterClose(s, final) == s
    ensures AfterSplice(s) == s.(q := s.q.(committing := false), commit := Ended)
  {
    hide Splice;
  }

  // ----- the reserved slot -----

  /** Messages for delivery leave the reserved slot free, and the barrier is queued once. */
  predicate ReservedInv(s: Session) {
    && |Messages(s.q.commands)| <= s.q.limit
    && (forall i, j :: 0 <= i < j < |Pipeline(s)| ==> !(Pipeline(s)[i].Barrier? && Pipeline(s)[j].Barrier?))
  }

  lemma {:induction false} MessagesBound(cs: seq<Command>)
    ensures |Messages(cs)| <= |cs|
    ensures |Messages(cs)| == |cs| <==> forall i :: 0 <= i < |cs| ==> cs[i].Deliver?
  {
    if cs != [] {
      MessagesBound(cs[1..]);
      assert forall i :: 1 <= i < |cs| ==> cs[i] == cs[1..][i - 1];
    }
  }

  lemma QueueingReserves(s: Session, t: Session, c: Command)
    requires ReservedInv(s) && t.worker == s.worker
    requires t.q.commands == s.q.commands + [c] && t.q.limit == s.q.limit
    requires c.Deliver? ==> |s.q.commands| < s.q.limit
    requires c.Barrier? ==> forall i :: 0 <= i < |Pipeline(s)| ==> !Pipeline(s)[i].Barrier?
    ensures ReservedInv(t)
  {
    PipelineSnoc(s, t, c);
    MessagesAppend(s.q.commands, [c]);
    MessagesOne(c);
    MessagesBound(s.q.commands);
    hide Pipeline, Messages;
  }

  lemma ReservedSend(s: Session, m: Message)
    requires Inv(s) && ReservedInv(s)
    ensures ReservedInv(AfterInitial(s, m)) && ReservedInv(AfterSend(s, m))
  {
    hide Pipeline, Messages, ReservedInv;
    if InitialSection(s.q, s.life, m).1 == Accepted {
      QueueingReserves(s, AfterInitial(s, m), Deliver(m));
    } else {
      UnqueuedReserves(s, AfterInitial(s, m));
    }
    if SendSection(s.q, s.life, m).1 == Accepted && s.life == Active {
      QueueingReserves(s, AfterSend(s, m), Deliver(m));
    } else {
      UnqueuedReserves(s, AfterSend(s, m));
    }
  }

  lemma ReservedSlotUse(s: Session, final: Option<Message>)
    requires Inv(s) && ReservedInv(s)
    ensures ReservedInv(AfterBarrier(s)) && ReservedInv(AfterClose(s, final))
  {
    hide Pipeline, Messages, ReservedInv;
    if BarrierSection(s.q, s.life).1 == Accepted {
      QueueingReserves(s, AfterBarrier(s), Barrier);
    } else {
      UnqueuedReserves(s, AfterBarrier(s));
    }
    if CloseSection(s.q, s.life, final).1 == Accepted {
      QueueingReserves(s, AfterClose(s, final), Final(final));
    } else {
      UnqueuedReserves(s, AfterClose(s, final));
    }
  }

  /** Nothing is queued, and the worker keeps or drops what it has in hand. */
  lemma UnqueuedReserves(s: Session, t: Session)
    requires ReservedInv(s) && t.q.commands == s.q.commands && t.q.limit == s.q.limit
    requires InHand(t.worker) == InHand(s.worker) || InHand(t.worker) == []
    ensures ReservedInv(t)
  {
    hide Messages;
    if InHand(t.worker) == InHand(s.worker) {
      assert Pipeline(t) == Pipeline(s);
    } else {
      assert Pipeline(t) == Pipeline(s)[1..];
    }
  }

  lemma ReservedTake(s: Session)
    requires ReservedInv(s) && s.worker == Idle && s.q.commands != []
    ensures ReservedInv(Taken(s))
  {
    assert Pipeline(Taken(s)) == Pipeline(s);
  }

  lemma ReservedSpliced(s: Session)
    requires Inv(s) && s.commit == Confirmed && s.life == Syncing && !s.q.closed
    ensures ReservedInv(AfterSplice(s))
  {
    hide Messages, SpliceSection;
    CommitNeverOverflows(s);
    MessagesOfDelivers(s.q.deferred);
    hide Inv;
    var t := AfterSplice(s);
    assert Pipeline(t) == Delivers(s.q.deferred);
    hide Pipeline;
  }

  lemma ReservedSplice(s: Session)
    requires Inv(s) && ReservedInv(s) && s.commit == Confirmed
    ensures ReservedInv(AfterSplice(s))
  {
    if s.life == Syncing && !s.q.closed {
      ReservedSpliced(s);
    } else {
      hide ReservedInv, Splice;
      UnqueuedReserves(s, AfterSplice(s));
    }
  }

  lemma ReservedHand(s: Session, step: Step)
    requires step.WorkerCheck? || step.WorkerWrite? || step.WorkerFlush?
    requires ReservedInv(s) && Next(s, step).Some?
    ensures ReservedInv(Next(s, step).value)
  {
    hide ReservedInv, AfterInitial, AfterSend, AfterBarrier, AfterSplice, AfterClose, Taken, Fail, Stop;
    UnqueuedReserves(s, Next(s, step).value);
  }

  lemma ReservedStep(s: Session, step: Step)
    requires Inv(s) && ReservedInv(s) && Next(s, step).Some?
    ensures ReservedInv(Next(s, step).value)
  {
    hide Inv, ReservedInv, AfterInitial, AfterSend, AfterBarrier, AfterSplice, AfterClose, Taken, Checked, Write, Flush;
    match step {
      case SendInitial(m) => ReservedSend(s, m);
      case Send(m) => ReservedSend(s, m);
      case BeginCommit => ReservedSlotUse(s, None);
      case Close(final) => ReservedSlotUse(s, final);
      case WorkerTake => ReservedTake(s);
      case FinishCommit => ReservedSplice(s);
      case WorkerCheck => ReservedHand(s, step);
      case WorkerWrite(_) => ReservedHand(s, step);
      case WorkerFlush(_) => ReservedHand(s, step);
      case _ => UnqueuedReserves(s, Next(s, step).value);
    }
  }

  lemma {:induction false} ReservedRun(s: Session, steps: seq<Step>, t: Session)
    requires Inv(s) && ReservedInv(s) && IsRun(s, steps, t) && Orderly(s, steps)
    ensures Inv(t) && ReservedInv(t)
    decreases |steps|
  {
    hide Inv, ReservedInv, Next;
    if steps != [] {
      StepKeepsInv(s, steps[0]);
      ReservedStep(s, steps[0]);
      ReservedRun(Next(s, steps[0]).value, steps[1..], t);
    }
  }

  /** One barrier, and deliveries everywhere else. */
  predicate BarrierAmongDeliveries(cs: seq<Command>) {
    exists i :: 0 <= i < |cs| && cs[i] == Barrier && forall j :: 0 <= j < |cs| && j != i ==> cs[j].Deliver?
  }

  /** The one slot kept free serves the barrier or the final message, not both: in every run
      the final message of an open session is refused exactly when the queue holds the barrier
      and as many deliveries as it may, and is accepted otherwise. */
  lemma FinalRefusedExactly(limit: nat, steps: seq<Step>, s: Session, final: Option<Message>)
    requires limit >= 1 && IsRun(Start(limit), steps, s) && Orderly(Start(limit), steps)
    requires !s.q.closed && s.life != Closed
    ensures CloseSection(s.q, s.life, final).1 == Overflow <==>
              |s.q.commands| == s.q.limit + 1 && BarrierAmongDeliveries(s.q.commands)
    ensures CloseSection(s.q, s.life, final).1 == Accepted <==> |s.q.commands| <= s.q.limit
  {
    StartInv(limit);
    MessagesNil();
    ReservedRun(Start(limit), steps, s);
    hide IsRun, Orderly;
    if |s.q.commands| == s.q.limit + 1 {
      FullQueueHoldsBarrier(s);
    }
  }

  lemma FullQueueHoldsBarrier(s: Session)
    requires Inv(s) && ReservedInv(s) && !s.q.closed && |s.q.commands| == s.q.limit + 1
    ensures BarrierAmongDeliveries(s.q.commands)
  {
    hide Messages, LanesInv, WireInv, BarrierInv;
    var cs, hand := s.q.commands, InHand(s.worker);
    MessagesBound(cs);
    assert forall i :: 0 <= i < |cs| ==> cs[i] == Pipeline(s)[|hand| + i];
    hide Pipeline, InHand;
    var i :| 0 <= i < |cs| && !cs[i].Deliver?;
    assert cs[i] == Barrier;
    forall j | 0 <= j < |cs| && j != i ensures cs[j].Deliver? {
      assert cs[j] == Pipeline(s)[|hand| + j] && cs[i] == Pipeline(s)[|hand| + i];
    }
  }

  // ----- the object behind the lock -----

  /** controlSession; every method body is one section run under its lock. */
  class ControlSession {
    var commands: seq<Command>
    var deferred: seq<Message>
    const limit: nat
    var closed: bool
    var committing: bool
    var stopped: bool

    function State(): Queue
      reads this
    {
      Queue(commands, deferred, limit, closed, committing, stopped)
    }

    constructor (limit: nat)
      ensures State() == Start(limit).q
    {
      this.limit := limit;
      commands, deferred := [], [];
      closed, committing, stopped := false, false, false;
    }

    method StopLocked()
      modifies this
      ensures State() == Stop(old(State()))
    {
      closed := true;
      deferred := [];
      if !stopped {
        stopped := true;
      }
    }

    method FailLocked()
      modifies this
      ensures State() == Fail(old(State()))
    {
      if stopped {
        return;
      }
      StopLocked();
    }

    method EnqueueLocked(c: Command, reserved: bool) returns (r: Reply)
      modifies this
      ensures (State(), r) == Enqueue(old(State()), c, reserved)
    {
      if !reserved && |commands| >= limit {
        FailLocked();
        return Overflow;
      }
      if |commands| < limit + 1 {
        commands := commands + [c];
        return Accepted;
      }
      FailLocked();
      return Overflow;
    }

    method SendInitialLocked(life: Life, m: Message) returns (r: Reply)
      modifies this
      ensures (State(), r) == InitialSection(old(State()), life, m)
    {
      if closed {
        return ControlClosed;
      }
      if life != Syncing || committing {
        return InvalidState;
      }
      r := EnqueueLocked(Deliver(m), false);
    }

    method SendLocked(life: Life, m: Message) returns (r: Reply)
      modifies this
      ensures (State(), r) == SendSection(old(State()), life, m)
    {
      if closed {
        return ControlClosed;
      }
      match life {
        case Syncing =>
          if |deferred| >= limit {
            FailLocked();
            return Overflow;
          }
          deferred := deferred + [m];
          return Accepted;
        case Active =>
          r := EnqueueLocked(Deliver(m), false);
        case _ =>
          return InvalidState;
      }
    }

    method BeginCommitLocked(life: Life) returns (r: Reply)
      modifies this
      ensures (State(), r) == BarrierSection(old(State()), life)
    {
      if closed || life != Syncing || committing {
        return InvalidState;
      }
      committing := true;
      r := EnqueueLocked(Barrier, true);
    }

    /** Splices the deferred lane into the queue; the caller turns the session Active on Accepted. */
    method FinishCommitLocked(life: Life) returns (r: Reply)
      modifies this
      ensures (State(), r) == SpliceSection(old(State()), life)
    {
      committing := false;
      if life != Syncing || closed {
        return InvalidState;
      }
      var waiting := deferred;
      ghost var spliced := Splice(State(), waiting);
      for i := 0 to |waiting|
        invariant Splice(State(), waiting[i..]) == spliced
      {
        assert waiting[i..][1..] == waiting[i + 1..];
        var sent := EnqueueLocked(Deliver(waiting[i]), false);
        if sent != Accepted {
          return sent;
        }
      }
      deferred := [];
      return Accepted;
    }

    method CloseLocked(life: Life, final: Option<Message>) returns (r: Reply)
      modifies this
      ensures (State(), r) == CloseSection(old(State()), life, final)
    {
      if closed || life == Closed {
        return ControlClosed;
      }
      closed := true;
      deferred := [];
      r := EnqueueLocked(Final(final), true);
    }
  }
}
