/** Activating a session around its control queue (CommitActive in
    internal/cluster/registry.go): exactly when the peer can be shown messages out of order. */
module ControlActivation {
  import opened Results
  import opened Sessions
  import opened ControlQueue

  /** What the peer has seen so far, any final message aside, is in acceptance order. */
  ghost predicate PeerInOrder(t: Session) {
    && (t.finals == 0 ==> t.wire <= t.initial + t.sends)
    && (t.finals != 0 ==> t.wire != [] && t.wire[..|t.wire| - 1] <= t.initial + t.sends)
  }

  /** The peer will be shown something out of order in some continuation. */
  ghost predicate Overtakes(s: Session) {
    exists steps, t :: IsRun(s, steps, t) && !PeerInOrder(t)
  }

  lemma PrefixOfSends(wire: seq<Message>, initial: seq<Message>, sends: seq<Message>)
    requires wire <= initial
    ensures wire <= initial + sends
  {}

  lemma InvInOrder(t: Session)
    requires Inv(t)
    ensures PeerInOrder(t)
  {
    if t.finals == 0 {
      if !t.activated {
        assert t.initial + [] == t.initial;
        PrefixOfSends(t.wire, t.initial, t.sends);
      }
    } else {
      assert t.wire[..|t.wire| - 1] == t.queued;
      if !t.activated {
        assert t.initial + [] == t.initial;
        PrefixOfSends(t.queued, t.initial, t.sends);
      }
    }
  }

  /** What stays so once a session has left Syncing: it never returns, takes no initial
      message and, once detached, stays detached. */
  predicate Later(s: Session, t: Session) {
    t.life != Syncing && t.initial == s.initial && s.sends <= t.sends && (!s.attached ==> !t.attached)
  }

  lemma SectionsLater(s: Session, m: Message, final: Option<Message>)
    requires s.life != Syncing
    ensures Later(s, AfterInitial(s, m)) && Later(s, AfterSend(s, m)) && Later(s, AfterBarrier(s))
    ensures Later(s, AfterClose(s, final)) && Later(s, AfterSplice(s))
  {
    hide Splice, Enqueue;
  }

  lemma WorkerLater(s: Session, ok: bool)
    requires s.life != Syncing
    ensures s.worker == Idle && s.q.commands != [] ==> Later(s, Taken(s))
    ensures s.worker.Took? ==> Later(s, Checked(s))
    ensures s.worker.Writing? ==> Later(s, Write(s, ok))
    ensures s.worker.Flushing? ==> Later(s, Flush(s, ok))
  {}

  lemma NoLongerSyncing(s: Session, step: Step)
    requires s.life != Syncing && Next(s, step).Some?
    ensures Later(s, Next(s, step).value) && step != BareActivate
  {
    hide AfterInitial, AfterSend, AfterBarrier, AfterSplice, AfterClose, Write, Flush, Taken, Checked, Fail, Stop;
    match step {
      case SendInitial(m) => SectionsLater(s, m, None);
      case Send(m) => SectionsLater(s, m, None);
      case BeginCommit => SectionsLater(s, Message(0), None);
      case Close(final) => SectionsLater(s, Message(0), final);
      case FinishCommit => SectionsLater(s, Message(0), None);
      case WorkerTake => WorkerLater(s, true);
      case WorkerCheck => WorkerLater(s, true);
      case WorkerWrite(ok) => WorkerLater(s, ok);
      case WorkerFlush(ok) => WorkerLater(s, ok);
      case _ =>
    }
  }

  lemma {:induction false} OrderlyOnceActive(s: Session, steps: seq<Step>, t: Session)
    requires s.life != Syncing && IsRun(s, steps, t)
    ensures Orderly(s, steps) && t.initial == s.initial && s.sends <= t.sends
    decreases |steps|
  {
    if steps != [] {
      NoLongerSyncing(s, steps[0]);
      hide Next;
      OrderlyOnceActive(Next(s, steps[0]).value, steps[1..], t);
    }
  }

  /** The session without its deferred lane. */
  function Undeferred(s: Session): Session {
    s.(q := s.q.(deferred := []), sends := [], activated := true)
  }

  lemma WorkerUndeferred(s: Session, ok: bool)
    ensures s.worker == Idle && s.q.commands != [] ==> Taken(Undeferred(s)) == Undeferred(Taken(s))
    ensures s.worker.Took? ==> Checked(Undeferred(s)) == Undeferred(Checked(s))
    ensures s.worker.Flushing? ==> Flush(Undeferred(s), ok) == Undeferred(Flush(s, ok))
  {
    hide Write;
  }

  lemma WriteUndeferred(s: Session, ok: bool)
    requires s.worker.Writing?
    ensures Write(Undeferred(s), ok) == Undeferred(Write(s, ok))
  {
    match s.worker.c {
      case Deliver(_) =>
      case Barrier =>
      case Final(_) =>
    }
  }

  lemma QueueUndeferred(s: Session)
    ensures Undeferred(s.(q := Fail(s.q))) == Undeferred(s).(q := Fail(Undeferred(s).q))
    ensures Undeferred(s.(q := Stop(s.q))) == Undeferred(s).(q := Stop(Undeferred(s).q))
    ensures s.life != Syncing ==> AfterSplice(Undeferred(s)) == Undeferred(AfterSplice(s))
  {
    hide Splice;
  }

  /** A detached session that is not syncing never looks at the deferred lane again. */
  lemma DetachedStep(s: Session, step: Step)
    requires s.life != Syncing && !s.attached && Next(s, step).Some?
    ensures Next(Undeferred(s), step) == Some(Undeferred(Next(s, step).value))
  {
    hide AfterInitial, AfterSend, AfterBarrier, AfterSplice, AfterClose, Write, Flush, Taken, Checked, Fail, Stop;
    QueueUndeferred(s);
    match step {
      case WorkerTake => WorkerUndeferred(s, true);
      case WorkerCheck => WorkerUndeferred(s, true);
      case WorkerWrite(ok) => WriteUndeferred(s, ok);
      case WorkerFlush(ok) => WorkerUndeferred(s, ok);
      case _ =>
    }
  }

  lemma {:induction false} DetachedRun(s: Session, steps: seq<Step>, t: Session)
    requires s.life != Syncing && !s.attached && IsRun(s, steps, t)
    ensures IsRun(Undeferred(s), steps, Undeferred(t))
    decreases |steps|
  {
    if steps != [] {
      NoLongerSyncing(s, steps[0]);
      DetachedStep(s, steps[0]);
      hide Next, Undeferred;
      DetachedRun(Next(s, steps[0]).value, steps[1..], t);
    }
  }

  // The activation itself.

  function Activated(s: Session): Session {
    s.(life := Active, activated := !s.q.closed)
  }

  lemma QuietInOrder(s: Session, steps: seq<Step>, t: Session)
    requires Inv(s) && s.life == Syncing && !s.q.closed && Dead(s.worker) && IsRun(Activated(s), steps, t)
    ensures PeerInOrder(t)
  {
    SilentForever(Activated(s), steps, t);
    OrderlyOnceActive(Activated(s), steps, t);
    hide IsRun, Orderly;
    assert s.initial + [] == s.initial;
    PrefixOfSends(s.wire, s.initial, t.sends);
  }

  lemma EmptyLaneInOrder(s: Session, steps: seq<Step>, t: Session)
    requires Inv(s) && s.life == Syncing && !s.q.closed && s.q.deferred == [] && IsRun(Activated(s), steps, t)
    ensures PeerInOrder(t)
  {
    assert Next(s, BareActivate) == Some(Activated(s));
    StepKeepsInv(s, BareActivate);
    OrderlyOnceActive(Activated(s), steps, t);
    hide Inv, Next, PeerInOrder;
    RunKeepsInv(Activated(s), steps, t);
    InvInOrder(t);
  }

  lemma DetachedInOrder(s: Session, steps: seq<Step>, t: Session)
    requires Inv(s) && s.life == Syncing && !s.q.closed && !s.attached && IsRun(Activated(s), steps, t)
    ensures PeerInOrder(t)
  {
    var u := Activated(s);
    assert Pipeline(Undeferred(u)) == Pipeline(s);
    assert Inv(Undeferred(u));
    DetachedRun(u, steps, t);
    OrderlyOnceActive(Undeferred(u), steps, Undeferred(t));
    hide Inv, Next, IsRun, Orderly, Messages, Pipeline;
    RunKeepsInv(Undeferred(u), steps, Undeferred(t));
    InvInOrder(Undeferred(t));
    assert t.initial + [] == t.initial;
    if t.finals == 0 {
      PrefixOfSends(t.wire, t.initial, t.sends);
    } else {
      PrefixOfSends(t.wire[..|t.wire| - 1], t.initial, t.sends);
    }
  }

  // The worker can empty a queue that is neither stopped nor closed by a final command.

  predicate Drainable(s: Session) {
    && !s.q.stopped && !Dead(s.worker) && (s.worker.Flushing? ==> s.worker.c.Barrier?)
    && forall i :: 0 <= i < |Pipeline(s)| ==> !Pipeline(s)[i].Final?
  }

  function Toil(s: Session): nat {
    4 * |s.q.commands|
    + if s.worker.Took? then 3 else if s.worker.Writing? then 2 else if s.worker.Flushing? then 1 else 0
  }

  /** Nothing but the work itself has changed. */
  predicate OnlyWorked(s: Session, t: Session) {
    t == s.(worker := t.worker, q := s.q.(commands := t.q.commands), wire := t.wire, flushed := t.flushed)
  }

  predicate Advances(s: Session, t: Session) {
    && Drainable(t) && OnlyWorked(s, t) && Toil(t) < Toil(s)
    && t.wire + Messages(Pipeline(t)) == s.wire + Messages(Pipeline(s))
  }

  lemma TakeProgress(s: Session)
    requires Drainable(s) && s.worker == Idle && s.q.commands != []
    ensures Advances(s, Taken(s))
  {
    assert Pipeline(Taken(s)) == Pipeline(s);
    hide Messages, Pipeline;
  }

  /** The command in hand goes, and only it. */
  lemma HandGoes(s: Session, t: Session)
    requires Drainable(s) && (s.worker.Writing? || s.worker.Flushing?) && t.worker == Idle && t.q == s.q
    ensures Drainable(t)
    ensures Messages(Pipeline(s)) == (if s.worker.c.Deliver? then [s.worker.c.message] else []) + Messages(Pipeline(t))
  {
    hide Messages;
    MessagesAppend([s.worker.c], s.q.commands);
    MessagesOne(s.worker.c);
    assert Pipeline(t) == s.q.commands && Pipeline(s) == [s.worker.c] + s.q.commands;
    var before, after := Pipeline(s), Pipeline(t);
    hide Pipeline;
    forall i | 0 <= i < |after| ensures !after[i].Final? {
      assert after[i] == before[i + 1];
    }
  }

  lemma DeliverProgress(s: Session)
    requires Drainable(s) && s.worker.Writing? && s.worker.c.Deliver?
    ensures Advances(s, Write(s, true))
  {
    var t := Write(s, true);
    HandGoes(s, t);
    hide Messages, Pipeline, Drainable;
    var m, rest := [s.worker.c.message], Messages(Pipeline(t));
    assert s.wire + (m + rest) == s.wire + m + rest;
  }

  lemma BarrierProgress(s: Session)
    requires Drainable(s) && s.worker.Writing? && s.worker.c.Barrier?
    ensures Advances(s, Write(s, true))
  {
    assert Pipeline(Write(s, true)) == Pipeline(s);
    hide Messages, Pipeline;
  }

  lemma FlushProgress(s: Session)
    requires Drainable(s) && s.worker.Flushing?
    ensures Advances(s, Flush(s, true))
  {
    var t := Flush(s, true);
    HandGoes(s, t);
    hide Messages, Pipeline, Drainable;
    assert [] + Messages(Pipeline(t)) == Messages(Pipeline(t));
  }

  predicate ByWorker(step: Step) {
    step.WorkerTake? || step.WorkerCheck? || step.WorkerWrite? || step.WorkerFlush?
  }

  lemma Progress(s: Session) returns (step: Step, t: Session)
    requires Drainable(s) && !(s.worker == Idle && s.q.commands == [])
    ensures Next(s, step) == Some(t) && Advances(s, t) && ByWorker(step)
  {
    hide Messages, AfterInitial, AfterSend, AfterBarrier, AfterSplice, AfterClose, Write, Flush, Taken;
    match s.worker {
      case Idle =>
        TakeProgress(s);
        step, t := WorkerTake, Taken(s);
      case Took(c) =>
        step, t := WorkerCheck, s.(worker := Writing(c));
        assert Pipeline(t) == Pipeline(s);
      case Writing(_) =>
        assert Pipeline(s)[0] == s.worker.c;
        if s.worker.c.Deliver? { DeliverProgress(s); } else { BarrierProgress(s); }
        step, t := WorkerWrite(true), Write(s, true);
      case Flushing(_) =>
        FlushProgress(s);
        step, t := WorkerFlush(true), Flush(s, true);
    }
  }

  lemma {:induction false} Drains(s: Session) returns (steps: seq<Step>, t: Session)
    requires Drainable(s)
    ensures IsRun(s, steps, t) && OnlyWorked(s, t) && t.worker == Idle && t.q.commands == []
    ensures t.wire == s.wire + Messages(Pipeline(s)) && forall i :: 0 <= i < |steps| ==> ByWorker(steps[i])
    decreases Toil(s)
  {
    hide Next, Messages;
    if s.worker == Idle && s.q.commands == [] {
      steps, t := [], s;
      assert Pipeline(s) == [];
      MessagesNil();
    } else {
      var step, u := Progress(s);
      hide Pipeline, Drainable;
      var rest;
      rest, t := Drains(u);
      steps := [step] + rest;
      RunOne(s, step, rest, t);
    }
  }

  lemma {:induction false} RunAppend(s: Session, a: seq<Step>, t: Session, b: seq<Step>, u: Session)
    requires IsRun(s, a, t) && IsRun(t, b, u)
    ensures IsRun(s, a + b, u)
    decreases |a|
  {
    hide Next;
    if a == [] {
      assert a + b == b;
    } else {
      RunAppend(Next(s, a[0]).value, a[1..], t, b, u);
      assert (a + b)[1..] == a[1..] + b;
    }
  }

  /** The next send after the activation is written right behind the initial messages. */
  lemma LaterSendWritten(u: Session, n: Message) returns (steps: seq<Step>, t: Session)
    requires Drainable(u) && u.life == Active && u.attached && !u.q.closed && u.q.limit >= 1
    ensures IsRun(u, steps, t) && t.initial == u.initial && t.sends == u.sends + [n] && t.finals == u.finals
    ensures t.wire == u.wire + Messages(Pipeline(u)) + [n]
  {
    assert !u.q.stopped;
    hide Messages, Pipeline, Drainable, IsRun;
    var drain, v := Drains(u);
    var w := v.(q := v.q.(commands := [Deliver(n)]), sends := v.sends + [n], queued := v.queued + [n]);
    assert [] + [Deliver(n)] == [Deliver(n)];
    assert Next(v, Send(n)) == Some(w);
    t := w.(q := w.q.(commands := []), wire := w.wire + [n]);
    WorkerDelivers(w, n, t);
    hide Next;
    RunOne(v, Send(n), [WorkerTake, WorkerCheck, WorkerWrite(true)], t);
    steps := drain + ([Send(n)] + [WorkerTake, WorkerCheck, WorkerWrite(true)]);
    RunAppend(u, drain, v, [Send(n)] + [WorkerTake, WorkerCheck, WorkerWrite(true)], t);
  }

  lemma DeferredOvertaken(s: Session)
    requires Inv(s) && s.life == Syncing && !s.q.closed && s.q.deferred != [] && s.attached && !Dead(s.worker)
    ensures Overtakes(Activated(s))
  {
    var u := Activated(s);
    var n := Message(s.sends[0].id + 1);
    assert Pipeline(u) == Pipeline(s);
    var steps, t := LaterSendWritten(u, n);
    hide Messages, Pipeline, IsRun;
    assert s.initial + [] == s.initial;
    assert t.wire == s.initial + [n];
    assert t.wire[|s.initial|] == n && (t.initial + t.sends)[|s.initial|] == s.sends[0];
  }

  /** Activating a syncing session around its queue lets the peer be shown something out of
      order, in some continuation, exactly when a message is deferred, the session can still
      be sent to and its worker lives. */
  lemma BareActivationExact(s: Session)
    requires Inv(s) && s.life == Syncing && !s.q.closed
    ensures Next(s, BareActivate) == Some(Activated(s))
    ensures Overtakes(Activated(s)) <==> s.q.deferred != [] && s.attached && !Dead(s.worker)
  {
    hide Inv, IsRun, PeerInOrder;
    if s.q.deferred != [] && s.attached && !Dead(s.worker) {
      DeferredOvertaken(s);
    }
    forall steps, t | IsRun(Activated(s), steps, t) && !(s.q.deferred != [] && s.attached && !Dead(s.worker))
      ensures PeerInOrder(t)
    {
      if s.q.deferred == [] {
        EmptyLaneInOrder(s, steps, t);
      } else if Dead(s.worker) {
        QuietInOrder(s, steps, t);
      } else {
        DetachedInOrder(s, steps, t);
      }
    }
  }

  /** Without the caller's obligation the order is lost: activating a session around its
      deferred message lets a later message overtake it for good. */
  lemma BareActivationOvertakes(m: Message, n: Message)
    requires m != n
    ensures exists steps, t :: IsRun(Start(1), steps, t) && t.initial == [] && t.wire == [n] && t.sends == [m, n]
  {
    var s0 := Start(1);
    var s1 := s0.(q := s0.q.(deferred := [m]), sends := [m]);
    var s2 := s1.(life := Active, activated := true);
    var s3 := s2.(q := s2.q.(commands := [Deliver(n)]), sends := [m, n], queued := [n]);
    assert [] + [m] == [m] && [] + [n] == [n] && [] + [Deliver(n)] == [Deliver(n)] && [m] + [n] == [m, n];
    assert Next(s0, Send(m)) == Some(s1);
    assert Next(s1, BareActivate) == Some(s2);
    assert Next(s2, Send(n)) == Some(s3);
    var t := s3.(q := s2.q, wire := [n]);
    WorkerDelivers(s3, n, t);
    hide Next;
    var work := [WorkerTake, WorkerCheck, WorkerWrite(true)];
    RunOne(s2, Send(n), work, t);
    RunOne(s1, BareActivate, [Send(n)] + work, t);
    RunOne(s0, Send(m), [BareActivate] + ([Send(n)] + work), t);
  }

  lemma WorkerDelivers(s: Session, m: Message, t: Session)
    requires s.worker == Idle && !s.q.stopped && s.q.commands == [Deliver(m)]
    requires t == s.(q := s.q.(commands := []), wire := s.wire + [m])
    ensures IsRun(s, [WorkerTake, WorkerCheck, WorkerWrite(true)], t)
  {
    assert s.q.commands[1..] == [];
    var s1 := t.(worker := Took(Deliver(m)), wire := s.wire);
    var s2 := s1.(worker := Writing(Deliver(m)));
    assert Next(s, WorkerTake) == Some(s1);
    assert Next(s1, WorkerCheck) == Some(s2);
    assert Next(s2, WorkerWrite(true)) == Some(t);
    hide Next;
    RunOne(s2, WorkerWrite(true), [], t);
    RunOne(s1, WorkerCheck, [WorkerWrite(true)], t);
    RunOne(s, WorkerTake, [WorkerCheck, WorkerWrite(true)], t);
  }

  lemma RunOne(s: Session, step: Step, rest: seq<Step>, t: Session)
    requires Next(s, step).Some? && IsRun(Next(s, step).value, rest, t)
    ensures IsRun(s, [step] + rest, t)
  {
    assert ([step] + rest)[1..] == rest;
  }
}
