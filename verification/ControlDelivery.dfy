/** What the control queue accepts, told without its sections, and that what it accepted can
    still reach the peer (internal/cluster/control.go). */
module ControlDelivery {
  import opened Results
  import opened Sessions
  import opened ControlQueue
  import opened ControlActivation

  /** A state of an orderly run of a fresh session. */
  ghost predicate Reached(limit: nat, steps: seq<Step>, s: Session) {
    limit >= 1 && IsRun(Start(limit), steps, s) && Orderly(Start(limit), steps)
  }

  lemma EnqueueKeepsLimit(q: Queue, c: Command, reserved: bool)
    ensures Enqueue(q, c, reserved).0.limit == q.limit
  {}

  lemma SendsKeepLimit(s: Session, m: Message)
    ensures AfterInitial(s, m).q.limit == s.q.limit && AfterSend(s, m).q.limit == s.q.limit
  {
    EnqueueKeepsLimit(s.q, Deliver(m), false);
    hide Enqueue;
  }

  lemma OtherSectionsKeepLimit(s: Session, final: Option<Message>)
    ensures AfterBarrier(s).q.limit == s.q.limit && AfterClose(s, final).q.limit == s.q.limit
    ensures AfterSplice(s).q.limit == s.q.limit
  {
    EnqueueKeepsLimit(s.q.(committing := true), Barrier, true);
    EnqueueKeepsLimit(s.q.(closed := true, deferred := []), Final(final), true);
    SpliceKeepsLimit(s.q.(committing := false), s.q.deferred);
    hide Splice, Enqueue;
  }

  lemma StepKeepsLimit(s: Session, step: Step)
    requires Next(s, step).Some?
    ensures Next(s, step).value.q.limit == s.q.limit
  {
    match step {
      case SendInitial(m) => SendsKeepLimit(s, m);
      case Send(m) => SendsKeepLimit(s, m);
      case BeginCommit => OtherSectionsKeepLimit(s, None);
      case FinishCommit => OtherSectionsKeepLimit(s, None);
      case Close(final) => OtherSectionsKeepLimit(s, final);
      case _ =>
    }
    hide AfterInitial, AfterSend, AfterBarrier, AfterSplice, AfterClose;
  }

  lemma {:induction false} SpliceKeepsLimit(q: Queue, ms: seq<Message>)
    ensures Splice(q, ms).0.limit == q.limit
    decreases |ms|
  {
    if ms != [] {
      var (q', r) := Enqueue(q, Deliver(ms[0]), false);
      SpliceKeepsLimit(q', ms[1..]);
    }
  }

  lemma {:induction false} RunKeepsLimit(s: Session, steps: seq<Step>, t: Session)
    requires IsRun(s, steps, t)
    ensures t.q.limit == s.q.limit
    decreases |steps|
  {
    hide Next;
    if steps != [] {
      StepKeepsLimit(s, steps[0]);
      RunKeepsLimit(Next(s, steps[0]).value, steps[1..], t);
    }
  }

  lemma ReachedInv(limit: nat, steps: seq<Step>, s: Session)
    requires Reached(limit, steps, s)
    ensures Inv(s) && ReservedInv(s) && s.q.limit == limit
  {
    StartInv(limit);
    MessagesNil();
    ReservedRun(Start(limit), steps, s);
    RunKeepsLimit(Start(limit), steps, s);
  }

  // ----- what is accepted -----

  /** The queue has given up: closed, stopped, with nothing deferred. */
  predicate GaveUp(s: Session, t: Session) {
    t == s.(q := s.q.(closed := true, stopped := true, deferred := []))
  }

  /** The session may still be synchronised. */
  predicate OpenSync(s: Session) {
    s.life == Syncing && !s.q.closed && s.commit == NotStarted
  }

  /** An initial message is accepted, in every run, exactly while the session is syncing, open
      and has not begun its commit, as long as fewer than `limit` commands wait; too many end
      the session, and otherwise nothing happens. What is deferred plays no part. */
  lemma InitialAcceptedExactly(limit: nat, steps: seq<Step>, s: Session, m: Message)
    requires Reached(limit, steps, s) && s.attached && s.life != Closed
    ensures Next(s, SendInitial(m)).Some?
    ensures var t := Next(s, SendInitial(m)).value;
      if !OpenSync(s) then t == s
      else if |s.q.commands| >= limit then GaveUp(s, t)
      else t == s.(initial := s.initial + [m], queued := s.queued + [m],
                   q := s.q.(commands := s.q.commands + [Deliver(m)]))
    ensures InitialSection(s.q, s.life, m).1 ==
            if s.q.closed then ControlClosed else if !OpenSync(s) then InvalidState
            else if |s.q.commands| >= limit then Overflow else Accepted
  {
    ReachedInv(limit, steps, s);
    hide Reached, ReservedInv, FinalInv, WireInv;
  }

  /** A send is accepted exactly while the session is open and syncing with fewer than `limit`
      sends before it, or open and active with fewer than `limit` commands waiting. */
  lemma SendAcceptedExactly(limit: nat, steps: seq<Step>, s: Session, m: Message)
    requires Reached(limit, steps, s) && s.attached && s.life != Closed
    ensures Next(s, Send(m)).Some?
    ensures var t := Next(s, Send(m)).value;
      if s.q.closed || s.life == Closing then t == s
      else if (if s.life == Syncing then |s.sends| else |s.q.commands|) >= limit then GaveUp(s, t)
      else if s.life == Syncing then t == s.(sends := s.sends + [m], q := s.q.(deferred := s.sends + [m]))
      else t == s.(sends := s.sends + [m], queued := s.queued + [m],
                   q := s.q.(commands := s.q.commands + [Deliver(m)]))
    ensures SendSection(s.q, s.life, m).1 ==
            if s.q.closed then ControlClosed else if s.life == Closing then InvalidState
            else if (if s.life == Syncing then |s.sends| else |s.q.commands|) >= limit then Overflow else Accepted
  {
    ReachedInv(limit, steps, s);
    hide Reached, ReservedInv, FinalInv, WireInv, BarrierInv;
  }

  lemma BarrierFits(s: Session)
    requires Inv(s) && ReservedInv(s) && OpenSync(s)
    ensures |s.q.commands| <= s.q.limit
  {
    hide Messages, LanesInv, WireInv;
    var hand := |InHand(s.worker)|;
    forall i | 0 <= i < |s.q.commands| ensures s.q.commands[i].Deliver? {
      assert s.q.commands[i] == Pipeline(s)[hand + i];
    }
    MessagesBound(s.q.commands);
  }

  /** A commit is begun exactly in a session that is syncing, open and has not begun one, and
      its barrier always finds the reserved slot free. */
  lemma CommitBegunExactly(limit: nat, steps: seq<Step>, s: Session)
    requires Reached(limit, steps, s) && s.attached && s.life != Closed
    ensures Next(s, BeginCommit).Some?
    ensures var t := Next(s, BeginCommit).value;
      if OpenSync(s)
      then t == s.(commit := Waiting, q := s.q.(commands := s.q.commands + [Barrier], committing := true))
      else t == s
    ensures BarrierSection(s.q, s.life).1 == if OpenSync(s) then Accepted else InvalidState
  {
    ReachedInv(limit, steps, s);
    if OpenSync(s) { BarrierFits(s); }
    hide Reached, ReservedInv, FinalInv, WireInv;
  }

  /** A close of an open session always closes it; with a slot free the final command is
      queued behind everything, and otherwise the session ends at once. */
  lemma CloseAcceptedExactly(limit: nat, steps: seq<Step>, s: Session, final: Option<Message>)
    requires Reached(limit, steps, s) && s.attached && s.life != Closed
    ensures Next(s, Close(final)).Some?
    ensures var t := Next(s, Close(final)).value;
      if s.q.closed then t == s
      else if |s.q.commands| > limit then GaveUp(s, t)
      else t == s.(farewell := final,
                   q := s.q.(closed := true, deferred := [], commands := s.q.commands + [Final(final)]))
  {
    ReachedInv(limit, steps, s);
    hide Reached, ReservedInv, FinalInv, WireInv, BarrierInv;
  }

  /** A timeout of the commit or the close, an abort and a failed write end the session once
      and for all; a stopped queue lets an idle worker go. */
  lemma EndingsGiveUp(limit: nat, steps: seq<Step>, s: Session, step: Step)
    requires Reached(limit, steps, s) && Next(s, step).Some?
    requires step in {CommitTimeout, CloseTimeout, Abort, WorkerFail, WorkerStop}
    ensures var t := Next(s, step).value;
      && t.q.closed && t.q.stopped && t.q.deferred == [] && t.q.commands == s.q.commands
      && t.wire == s.wire && t.initial == s.initial && t.sends == s.sends && t.life == s.life
      && (step.CommitTimeout? ==> t.commit == Ended) && (step.WorkerFail? || step.WorkerStop? ==> t.worker == Exited)
      && (!step.WorkerFail? && !step.WorkerStop? ==> t.worker == s.worker)
  {
    ReachedInv(limit, steps, s);
    hide Reached, ReservedInv, FinalInv, WireInv, BarrierInv, IsRun, Orderly;
  }

  // ----- what can still arrive -----

  predicate Alive(s: Session) {
    s.attached && !s.q.closed && !Dead(s.worker)
  }

  lemma {:induction false} WorkerIsOrderly(s: Session, steps: seq<Step>)
    requires forall i :: 0 <= i < |steps| ==> ByWorker(steps[i])
    ensures Orderly(s, steps)
    decreases |steps|
  {
    hide Next;
    if steps != [] && Next(s, steps[0]).Some? {
      WorkerIsOrderly(Next(s, steps[0]).value, steps[1..]);
    }
  }

  /** The worker writes out all that waits. */
  lemma WorksOff(s: Session) returns (steps: seq<Step>, t: Session)
    requires Inv(s) && Alive(s)
    ensures IsRun(s, steps, t) && OnlyWorked(s, t) && Inv(t) && t.wire == s.queued
    ensures t.worker == Idle && t.q.commands == [] && forall i :: 0 <= i < |steps| ==> ByWorker(steps[i])
  {
    hide Messages, IsRun, Orderly;
    assert s.worker.Flushing? ==> Pipeline(s)[0] == s.worker.c;
    steps, t := Drains(s);
    WorkerIsOrderly(s, steps);
    RunKeepsInv(s, steps, t);
  }

  /** The same and then one more step. */
  lemma ThenStep(s: Session, steps: seq<Step>, t: Session, step: Step, u: Session)
    requires IsRun(s, steps, t) && Next(t, step) == Some(u)
    ensures IsRun(s, steps + [step], u)
  {
    assert IsRun(u, [], u);
    hide Next, IsRun;
    RunOne(t, step, [], u);
    assert [step] + [] == [step];
    RunAppend(s, steps, t, [step], u);
  }

  /** From a confirmed commit the session becomes active and everything is written. */
  lemma FinishArrives(s: Session) returns (steps: seq<Step>, t: Session)
    requires Inv(s) && Alive(s) && s.life == Syncing && s.commit == Confirmed
    ensures IsRun(s, steps, t) && Arrived(s, t)
  {
    CommitNeverOverflows(s);
    StepSpliced(s);
    var u := AfterSplice(s);
    hide SpliceSection, Messages, IsRun, FinalInv, WireInv, BarrierInv;
    steps, t := WorksOff(u);
    RunOne(s, FinishCommit, steps, t);
    steps := [FinishCommit] + steps;
  }

  /** Everything accepted so far has been written, in order, and the session is active. */
  predicate Arrived(s: Session, t: Session) {
    && t.initial == s.initial && t.sends == s.sends && t.wire == s.initial + s.sends
    && t.life == Active && t.attached && !t.q.closed
  }

  lemma WaitingArrives(s: Session) returns (steps: seq<Step>, t: Session)
    requires Inv(s) && Alive(s) && s.life == Syncing && s.commit == Waiting
    ensures IsRun(s, steps, t) && Arrived(s, t)
  {
    hide IsRun, Messages, WireInv, FinalInv;
    var drain, u := WorksOff(s);
    assert u.flushed;
    var v := u.(commit := Confirmed);
    assert Next(u, ConfirmCommit) == Some(v);
    StepKeepsInv(u, ConfirmCommit);
    hide Inv, Next;
    ThenStep(s, drain, u, ConfirmCommit, v);
    var rest;
    rest, t := FinishArrives(v);
    RunAppend(s, drain + [ConfirmCommit], v, rest, t);
    steps := drain + [ConfirmCommit] + rest;
  }

  /** Nothing accepted is ever out of reach: from every state of an orderly run in which the
      session is open, bound and its worker lives, some continuation accepts nothing more and
      ends with exactly the initial messages and then the sends on the wire. */
  lemma EverythingCanArrive(limit: nat, before: seq<Step>, s: Session) returns (steps: seq<Step>, t: Session)
    requires Reached(limit, before, s) && Alive(s) && (s.life == Syncing || s.life == Active)
    ensures IsRun(s, steps, t) && Arrived(s, t)
  {
    ReachedInv(limit, before, s);
    if s.life == Active {
      hide IsRun, Messages, FinalInv, BarrierInv, CapacityInv, Reached;
      steps, t := WorksOff(s);
    } else if s.commit == NotStarted {
      CommitBegunExactly(limit, before, s);
      var u := Next(s, BeginCommit).value;
      StepKeepsInv(s, BeginCommit);
      hide Inv, IsRun, Reached;
      steps, t := WaitingArrives(u);
      hide Next;
      RunOne(s, BeginCommit, steps, t);
      steps := [BeginCommit] + steps;
    } else if s.commit == Waiting {
      steps, t := WaitingArrives(s);
    } else {
      steps, t := FinishArrives(s);
    }
  }

  // ----- a close carries its message to the end -----

  /** The session after an accepted close. */
  function Closed'(s: Session, m: Message): Session {
    s.(farewell := Some(m),
       q := s.q.(closed := true, deferred := [], commands := s.q.commands + [Final(Some(m))]))
  }

  lemma ClosedStepsAlong(s: Session, step: Step, u: Session, m: Message)
    requires ByWorker(step) && Next(s, step) == Some(u)
    ensures Next(Closed'(s, m), step) == Some(Closed'(u, m))
  {
    hide AfterInitial, AfterSend, AfterBarrier, AfterSplice, AfterClose, Write, Flush, Taken;
    match step {
      case WorkerTake => ClosedTaken(s, m);
      case WorkerWrite(ok) => ClosedWrite(s, ok, m);
      case WorkerFlush(ok) => ClosedFlush(s, ok, m);
      case _ =>
    }
  }

  lemma ClosedTaken(s: Session, m: Message)
    requires s.q.commands != []
    ensures Taken(Closed'(s, m)) == Closed'(Taken(s), m)
  {
    assert (s.q.commands + [Final(Some(m))])[1..] == s.q.commands[1..] + [Final(Some(m))];
  }

  lemma ClosedWrite(s: Session, ok: bool, m: Message)
    requires s.worker.Writing?
    ensures Write(Closed'(s, m), ok) == Closed'(Write(s, ok), m)
  {
    var c, t := Closed'(s, m), Write(s, ok);
    assert c.worker == s.worker && c.wire == s.wire && c.finals == s.finals;
    assert t == s.(worker := t.worker, wire := t.wire, finals := t.finals);
    assert Write(c, ok) == c.(worker := t.worker, wire := t.wire, finals := t.finals);
    hide Write;
  }

  lemma ClosedFlush(s: Session, ok: bool, m: Message)
    requires s.worker.Flushing?
    ensures Flush(Closed'(s, m), ok) == Closed'(Flush(s, ok), m)
  {
    var c, t := Closed'(s, m), Flush(s, ok);
    assert t == s.(worker := t.worker, flushed := t.flushed);
    assert Flush(c, ok) == c.(worker := t.worker, flushed := t.flushed);
    hide Flush;
  }

  lemma {:induction false} ClosedRunsAlong(s: Session, steps: seq<Step>, t: Session, m: Message)
    requires IsRun(s, steps, t) && forall i :: 0 <= i < |steps| ==> ByWorker(steps[i])
    ensures IsRun(Closed'(s, m), steps, Closed'(t, m))
    decreases |steps|
  {
    hide Next, Closed';
    if steps != [] {
      ClosedStepsAlong(s, steps[0], Next(s, steps[0]).value, m);
      ClosedRunsAlong(Next(s, steps[0]).value, steps[1..], t, m);
    }
  }

  lemma FarewellWritten(s: Session, m: Message) returns (steps: seq<Step>, t: Session)
    requires s.worker == Idle && s.q.commands == [Final(Some(m))] && !s.q.stopped
    ensures IsRun(s, steps, t) && t.wire == s.wire + [m] && t.finals == s.finals + 1 && t.worker == Exited
  {
    var c := Final(Some(m));
    var s1 := s.(worker := Took(c), q := s.q.(commands := []));
    var s2 := s1.(worker := Writing(c));
    var s3 := s1.(worker := Flushing(c), wire := s.wire + [m], finals := s.finals + 1);
    t := s3.(worker := Exited);
    assert [c][1..] == [];
    assert Next(s, WorkerTake) == Some(s1) && Next(s1, WorkerCheck) == Some(s2);
    assert Next(s2, WorkerWrite(true)) == Some(s3) && Next(s3, WorkerFlush(true)) == Some(t);
    assert IsRun(s, [], s);
    hide Next, IsRun;
    ThenStep(s, [], s, WorkerTake, s1);
    ThenStep(s, [] + [WorkerTake], s1, WorkerCheck, s2);
    ThenStep(s, [] + [WorkerTake] + [WorkerCheck], s2, WorkerWrite(true), s3);
    ThenStep(s, [] + [WorkerTake] + [WorkerCheck] + [WorkerWrite(true)], s3, WorkerFlush(true), t);
    steps := [] + [WorkerTake] + [WorkerCheck] + [WorkerWrite(true)] + [WorkerFlush(true)];
  }

  /** Whenever a slot is free, a close can have its message written, right behind everything
      that was queued before it, and the worker then ends. */
  lemma FarewellCanArrive(limit: nat, before: seq<Step>, s: Session, m: Message) returns (steps: seq<Step>, t: Session)
    requires Reached(limit, before, s) && Alive(s) && s.life != Closed && |s.q.commands| <= limit
    ensures IsRun(s, [Close(Some(m))] + steps, t)
    ensures t.wire == s.queued + [m] && t.finals == 1 && t.worker == Exited
  {
    ReachedInv(limit, before, s);
    CloseAcceptedExactly(limit, before, s, Some(m));
    assert s.finals == 0 && !s.q.stopped;
    hide IsRun, Reached, ReservedInv, Messages, Pipeline;
    var drain, u := WorksOff(s);
    hide Inv;
    ClosedRunsAlong(s, drain, u, m);
    var v := Closed'(u, m);
    assert [] + [Final(Some(m))] == [Final(Some(m))];
    var rest;
    rest, t := FarewellWritten(v, m);
    hide Next;
    RunAppend(Closed'(s, m), drain, v, rest, t);
    steps := drain + rest;
    RunOne(s, Close(Some(m)), steps, t);
  }
}
