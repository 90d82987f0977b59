/** The session registry (internal/cluster/registry.go) as a step system. An entry is one
    binding of a session reference; a thread that looked an entry up may take its transition
    lock at any later time, so between any two sections anything else may happen. */
module Registry {
  import opened Results
  import opened Sessions

  /** What the holder of a transition lock is about to do. A commit activates the binding it
      looks up; afterwards one started by the control transport marks that binding announced,
      a plain one the binding it has locked. */
  datatype Op =
    | Commit(announce: bool, viaControl: bool)
    | Announcing(activated: nat, marks: nat) | Joined(activated: nat, marks: nat)
    | Close | CloseUnbind | Cleaning | Unbind

  /** `joined`, `closes` and `reported` record what happened to the binding: the join callback
      returned, how many closes succeeded, how many of their snapshots said announced. */
  datatype Entry = Entry(
    ref: SessionRef, edge: EdgeID, life: Life, announced: bool, lock: Option<Op>,
    joined: bool, closes: nat, reported: nat)

  /** `entries` holds every binding ever made; `sessions` points at the live ones. */
  datatype State = State(edges: map<EdgeID, nat>, sessions: map<nat, nat>, entries: seq<Entry>)

  const Empty := State(map[], map[], [])

  /** `Abandon` is a control commit that gives up before its registry section, because its
      barrier failed or the entry it locked is no longer the live one. */
  datatype Step =
    | RegisterEdge(id: EdgeID, gen: nat) | RemoveEdge(id: EdgeID, gen: nat)
    | Bind(ref: SessionRef, edge: EdgeID)
    | Acquire(e: nat, op: Op)
    | CommitSection(e: nat) | JoinReturns(e: nat) | AnnounceSection(e: nat)
    | Abandon(e: nat)
    | CloseSection(e: nat) | CloseUnbindSection(e: nat) | UnbindSection(e: nat)

  // ----- the sections -----

  /** The live entry a section finds for the reference, if any. */
  function Lookup(s: State, ref: SessionRef): Option<nat> {
    if ref.sessionID in s.sessions && s.sessions[ref.sessionID] < |s.entries|
       && s.entries[s.sessions[ref.sessionID]].ref == ref
    then Some(s.sessions[ref.sessionID]) else None
  }

  function Update(s: State, k: nat, e: Entry): State
    requires k < |s.entries|
  {
    s.(entries := s.entries[k := e])
  }

  function Release(s: State, k: nat): State
    requires k < |s.entries|
  {
    Update(s, k, s.entries[k].(lock := None))
  }

  function Hold(s: State, k: nat, op: Op): State
    requires k < |s.entries|
  {
    Update(s, k, s.entries[k].(lock := Some(op)))
  }

  function BindSection(s: State, ref: SessionRef, edge: EdgeID): State {
    if !ValidRef(ref) || edge !in s.edges || ref.sessionID in s.sessions then s
    else s.(sessions := s.sessions[ref.sessionID := |s.entries|],
            entries := s.entries + [Entry(ref, edge, Syncing, false, None, false, 0, 0)])
  }

  function Committed(s: State, k: nat): State
    requires k < |s.entries| && s.entries[k].lock.Some? && s.entries[k].lock.value.Commit?
  {
    var op := s.entries[k].lock.value;
    match Lookup(s, s.entries[k].ref)
    case None => Release(s, k)
    case Some(found) =>
      if s.entries[found].life != Syncing then Release(s, k)
      else
        var s' := Update(s, found, s.entries[found].(life := Active));
        if op.announce then Hold(s', k, Announcing(found, if op.viaControl then found else k)) else Release(s', k)
  }

  /** beginClose on the entry found: the first close moves it to Closing and its snapshot
      tells whether the session was announced; later ones never say so. */
  function CloseEntry(e: Entry): Entry {
    if e.life == Closing || e.life == Closed then e.(closes := e.closes + 1)
    else e.(life := Closing, closes := e.closes + 1, reported := e.reported + if e.announced then 1 else 0)
  }

  function ClosedBy(s: State, k: nat): State
    requires k < |s.entries|
  {
    match Lookup(s, s.entries[k].ref)
    case None => Release(s, k)
    case Some(found) => Release(Update(s, found, CloseEntry(s.entries[found])), k)
  }

  function CloseUnbindBegins(s: State, k: nat): State
    requires k < |s.entries|
  {
    var e := s.entries[k];
    if e.ref.sessionID !in s.sessions || s.sessions[e.ref.sessionID] != k then Release(s, k)
    else
      var told := e.announced && e.life != Closing;
      Hold(Update(s, k, e.(life := Closing, closes := e.closes + 1, reported := e.reported + if told then 1 else 0)),
           k, Cleaning)
  }

  function Unbound(s: State, k: nat): State
    requires k < |s.entries|
  {
    match Lookup(s, s.entries[k].ref)
    case None => Release(s, k)
    case Some(found) =>
      var s' := Update(s, found, s.entries[found].(life := Closed));
      Release(s'.(sessions := s.sessions - {s.entries[k].ref.sessionID}), k)
  }

  predicate OnEdge(sessions: map<nat, nat>, entries: seq<Entry>, id: EdgeID, i: nat) {
    i in sessions && sessions[i] < |entries| && entries[sessions[i]].edge == id
  }

  function NotOnEdge(sessions: map<nat, nat>, entries: seq<Entry>, id: EdgeID): map<nat, nat> {
    map i | i in sessions && !OnEdge(sessions, entries, id, i) :: sessions[i]
  }

  function Next(s: State, step: Step): Option<State> {
    match step
    case RegisterEdge(id, gen) =>
      Some(if id == "" || gen == 0 || (id in s.edges && s.edges[id] != gen) then s else s.(edges := s.edges[id := gen]))
    case RemoveEdge(id, gen) =>
      Some(if id !in s.edges || s.edges[id] != gen then s
           else s.(edges := s.edges - {id}, sessions := NotOnEdge(s.sessions, s.entries, id)))
    case Bind(ref, edge) => Some(BindSection(s, ref, edge))
    case Acquire(e, op) =>
      if e < |s.entries| && s.entries[e].lock.None? && (op.Commit? || op.Close? || op.CloseUnbind? || op.Unbind?)
      then Some(Hold(s, e, op)) else None
    case CommitSection(e) =>
      if e < |s.entries| && s.entries[e].lock.Some? && s.entries[e].lock.value.Commit? then Some(Committed(s, e))
        else None
    case JoinReturns(e) =>
      if e < |s.entries| && s.entries[e].lock.Some? && s.entries[e].lock.value.Announcing?
         && s.entries[e].lock.value.activated < |s.entries| then
        var op := s.entries[e].lock.value;
        Some(Hold(Update(s, op.activated, s.entries[op.activated].(joined := true)), e, Joined(op.activated, op.marks)))
      else None
    case AnnounceSection(e) =>
      if e < |s.entries| && s.entries[e].lock.Some? && s.entries[e].lock.value.Joined?
         && s.entries[e].lock.value.marks < |s.entries| then
        var x := s.entries[e].lock.value.marks;
        Some(Release(Update(s, x, s.entries[x].(announced := true)), e))
      else None
    case Abandon(e) =>
      if e < |s.entries| && s.entries[e].lock.Some? && s.entries[e].lock.value.Commit?
        && s.entries[e].lock.value.viaControl
      then Some(Release(s, e)) else None
    case CloseSection(e) => if e < |s.entries| && s.entries[e].lock == Some(Close) then Some(ClosedBy(s, e)) else None
    case CloseUnbindSection(e) =>
      if e < |s.entries| && s.entries[e].lock == Some(CloseUnbind) then Some(CloseUnbindBegins(s, e)) else None
    case UnbindSection(e) =>
      if e < |s.entries| && (s.entries[e].lock == Some(Unbind) || s.entries[e].lock == Some(Cleaning))
      then Some(Unbound(s, e)) else None
  }

  // ----- the invariant -----

  /** Live session numbers point at their own, still open, binding. */
  ghost predicate Indexed(s: State) {
    forall i :: i in s.sessions ==>
      s.sessions[i] < |s.entries| && s.entries[s.sessions[i]].ref.sessionID == i
        && s.entries[s.sessions[i]].life != Closed
  }

  predicate Joining(e: Entry) {
    e.lock.Some? && (e.lock.value.Announcing? || e.lock.value.Joined?)
  }

  /** One binding: while its join is being announced it is Active and not closed, and the
      announcement is its own; apart from the moment between the callback and the mark, it
      counts as announced exactly if its join callback returned; and once closed it was
      reported exactly when it was announced. */
  predicate EntryOk(e: Entry, k: nat) {
    && (Joining(e) ==> e.lock.value.activated == k && e.lock.value.marks == k)
    && (Joining(e) ==> e.life == Active && !e.announced && e.closes == 0 && e.joined == e.lock.value.Joined?)
    && (!Joining(e) ==> e.joined == e.announced)
    && (e.lock.Some? && e.lock.value.Cleaning? ==> e.life == Closing || e.life == Closed)
    && (e.announced ==> e.life != Syncing)
    && (e.life == Closing ==> e.closes > 0)
    && (e.closes > 0 ==> e.life == Closing || e.life == Closed)
    && e.reported == (if e.closes > 0 && e.announced then 1 else 0)
  }

  ghost predicate Consistent(s: State) {
    Indexed(s) && forall k :: 0 <= k < |s.entries| ==> EntryOk(s.entries[k], k)
  }

  // ----- which steps keep the bindings consistent -----

  predicate ByHolder(step: Step) {
    !step.RegisterEdge? && !step.RemoveEdge? && !step.Bind?
  }

  /** The step acts, through the lookup inside its section, on another binding of the same
      reference than the one whose lock it holds, and on one that minds: it activates and
      will announce it, or it closes or unbinds it while it is being announced. */
  predicate Strays(s: State, step: Step) {
    ByHolder(step) && step.e < |s.entries| &&
    var e, found := s.entries[step.e], Lookup(s, s.entries[step.e].ref);
    found.Some? && found.value != step.e &&
    match step
    case CommitSection(_) => s.entries[found.value].life == Syncing && e.lock.Some? && e.lock.value.Commit?
      && e.lock.value.announce
    case CloseSection(_) => Joining(s.entries[found.value])
    case UnbindSection(_) => Joining(s.entries[found.value])
    case _ => false
  }

  lemma LookupFinds(s: State, ref: SessionRef)
    requires Indexed(s) && Lookup(s, ref).Some?
    ensures var f := Lookup(s, ref).value;
      f < |s.entries| && s.entries[f].ref == ref && s.entries[f].life != Closed && s.sessions[ref.sessionID] == f
  {}

  /** Changing one binding to another consistent life of the same reference. */
  lemma UpdateExact(s: State, k: nat, e: Entry)
    requires Consistent(s) && k < |s.entries| && e.ref == s.entries[k].ref
      && (e.life != Closed || s.entries[k].life == Closed)
    ensures Consistent(Update(s, k, e)) <==> EntryOk(e, k)
  {
    var t := Update(s, k, e);
    assert t.entries[k] == e;
    hide EntryOk;
    if EntryOk(e, k) {
      forall j | 0 <= j < |t.entries| ensures EntryOk(t.entries[j], j) {
        assert j != k ==> t.entries[j] == s.entries[j];
      }
    }
  }

  lemma OutsideKeeps(s: State, step: Step)
    requires Consistent(s) && !ByHolder(step)
    ensures Next(s, step).Some? && Consistent(Next(s, step).value)
  {
    hide EntryOk;
    var t := Next(s, step).value;
    if step.Bind? && t != s {
      var e := Entry(step.ref, step.edge, Syncing, false, None, false, 0, 0);
      assert EntryOk(e, |s.entries|) by { FreshEntryOk(step.ref, step.edge, |s.entries|); }
      assert t.entries == s.entries + [e];
    }
  }

  lemma FreshEntryOk(ref: SessionRef, edge: EdgeID, k: nat)
    ensures EntryOk(Entry(ref, edge, Syncing, false, None, false, 0, 0), k)
  {}

  /** Steps that touch no binding but the one they hold. */
  lemma OwnKeeps(s: State, step: Step)
    requires step.Acquire? || step.JoinReturns? || step.AnnounceSection? || step.Abandon? || step.CloseUnbindSection?
    requires Consistent(s) && Next(s, step).Some?
    ensures var e := s.entries[step.e];
      Next(s, step) == Some(Update(s, step.e, OwnAfter(s, step))) && EntryOk(OwnAfter(s, step), step.e)
      && Forward(e, OwnAfter(s, step))
  {
    var k := step.e;
    var e := s.entries[k];
    assert EntryOk(e, k);
    var t := Next(s, step).value;
    if step.CloseUnbindSection? && k in s.sessions.Values { assert Indexed(s); }
    assert t.entries == s.entries[k := OwnAfter(s, step)];
  }

  function OwnAfter(s: State, step: Step): Entry
    requires ByHolder(step) && step.e < |s.entries|
  {
    var k, e := step.e, s.entries[step.e];
    match step
    case Acquire(_, op) => e.(lock := Some(op))
    case JoinReturns(_) => e.(joined := true, lock := Some(Joined(k, k)))
    case AnnounceSection(_) => e.(announced := true, lock := None)
    case CloseUnbindSection(_) =>
      if e.ref.sessionID !in s.sessions || s.sessions[e.ref.sessionID] != k then e.(lock := None)
      else e.(life := Closing, closes := e.closes + 1, lock := Some(Cleaning),
              reported := e.reported + if e.announced && e.life != Closing then 1 else 0)
    case _ => e.(lock := None)
  }

  /** A binding as it was, or further along. */
  predicate Forward(e: Entry, e': Entry) {
    && e'.ref == e.ref && Rank(e.life) <= Rank(e'.life)
    && (e.announced ==> e'.announced) && e.closes <= e'.closes
    && (e.closes > 0 ==> e'.announced == e.announced)
  }

  lemma ForwardTwice(a: Entry, b: Entry, c: Entry)
    ensures Forward(a, a)
    ensures Forward(a, b) && Forward(b, c) ==> Forward(a, c)
  {}

  /** Every binding is as it was or further along. */
  ghost predicate AllForward(s: State, t: State) {
    |s.entries| <= |t.entries| && forall j :: 0 <= j < |s.entries| ==> Forward(s.entries[j], t.entries[j])
  }

  /** Another binding changes, then the holder of k lets go or goes on. */
  lemma TwoBindings(s: State, f: nat, f': Entry, k: nat, k': Entry)
    requires Consistent(s) && f < |s.entries| && k < |s.entries| && f != k
    requires f'.ref == s.entries[f].ref && (f'.life != Closed || s.entries[f].life == Closed)
    requires k'.ref == s.entries[k].ref && k'.life == s.entries[k].life
    ensures Consistent(Update(Update(s, f, f'), k, k')) <==> EntryOk(f', f) && EntryOk(k', k)
  {
    var t := Update(Update(s, f, f'), k, k');
    assert t.entries[f] == f' && t.entries[k] == k';
    if EntryOk(f', f) {
      UpdateExact(s, f, f');
      UpdateExact(Update(s, f, f'), k, k');
    }
    hide EntryOk;
  }

  lemma ReleasedOk(e: Entry, k: nat)
    requires EntryOk(e, k) && !Joining(e)
    ensures EntryOk(e.(lock := None), k)
  {}

  lemma ActivatedOk(e: Entry, k: nat)
    requires EntryOk(e, k) && e.life == Syncing
    ensures EntryOk(e.(life := Active), k) && Forward(e, e.(life := Active))
  {}

  lemma CommitExact(s: State, k: nat)
    requires Consistent(s) && Next(s, CommitSection(k)).Some?
    ensures Consistent(Next(s, CommitSection(k)).value) <==> !Strays(s, CommitSection(k))
    ensures !Strays(s, CommitSection(k)) ==> AllForward(s, Next(s, CommitSection(k)).value)
  {
    var e, t := s.entries[k], Next(s, CommitSection(k)).value;
    assert EntryOk(e, k);
    var op, found := e.lock.value, Lookup(s, e.ref);
    if found.None? || s.entries[found.value].life != Syncing {
      UpdateExact(s, k, e.(lock := None));
    } else {
      var f := found.value;
      LookupFinds(s, e.ref);
      assert EntryOk(s.entries[f], f);
      if f == k {
        var e' := e.(life := Active, lock := if op.announce then Some(Announcing(k, k)) else None);
        assert t.entries == s.entries[k := e'];
        assert t == Update(s, k, e');
        UpdateExact(s, k, e');
      } else {
        var k' := e.(lock := if op.announce then Some(Announcing(f, if op.viaControl then f else k)) else None);
        ActivatedOk(s.entries[f], f);
        assert EntryOk(k', k) <==> !op.announce;
        hide EntryOk, Indexed;
        TwoBindings(s, f, s.entries[f].(life := Active), k, k');
      }
    }
  }

  lemma CloseEntryOk(e: Entry, k: nat)
    requires EntryOk(e, k) && e.life != Closed
    ensures EntryOk(CloseEntry(e), k) <==> !Joining(e)
    ensures CloseEntry(e).ref == e.ref && CloseEntry(e).life == Closing && Forward(e, CloseEntry(e))
  {}

  lemma CloseExact(s: State, k: nat)
    requires Consistent(s) && Next(s, CloseSection(k)).Some?
    ensures Consistent(Next(s, CloseSection(k)).value) <==> !Strays(s, CloseSection(k))
    ensures !Strays(s, CloseSection(k)) ==> AllForward(s, Next(s, CloseSection(k)).value)
  {
    var e, t := s.entries[k], Next(s, CloseSection(k)).value;
    assert EntryOk(e, k);
    ReleasedOk(e, k);
    var found := Lookup(s, e.ref);
    if found.None? {
      UpdateExact(s, k, e.(lock := None));
    } else {
      var f := found.value;
      LookupFinds(s, e.ref);
      assert EntryOk(s.entries[f], f);
      CloseEntryOk(s.entries[f], f);
      if f == k {
        ReleasedOk(CloseEntry(e), k);
        var e' := CloseEntry(e).(lock := None);
        assert t.entries == s.entries[k := e'];
        UpdateExact(s, k, e');
      } else {
        hide CloseEntry, EntryOk;
        TwoBindings(s, f, CloseEntry(s.entries[f]), k, e.(lock := None));
      }
    }
  }

  /** The index without the number of f lets f be closed for good. */
  lemma UnindexedConsistent(s: State, id: nat)
    requires Consistent(s)
    ensures Consistent(s.(sessions := s.sessions - {id}))
  {}

  lemma CloseForGood(s: State, f: nat)
    requires Consistent(s) && f < |s.entries| && s.entries[f].ref.sessionID !in s.sessions
    ensures var t := Update(s, f, s.entries[f].(life := Closed));
      Consistent(t) <==> !Joining(s.entries[f])
  {
    var t := Update(s, f, s.entries[f].(life := Closed));
    assert EntryOk(s.entries[f], f);
    assert EntryOk(t.entries[f], f) <==> !Joining(s.entries[f]);
    hide EntryOk;
    if !Joining(s.entries[f]) {
      forall j | 0 <= j < |t.entries| ensures EntryOk(t.entries[j], j) {
        assert j != f ==> t.entries[j] == s.entries[j];
      }
    }
  }

  lemma UnbindExact(s: State, k: nat)
    requires Consistent(s) && Next(s, UnbindSection(k)).Some?
    ensures Consistent(Next(s, UnbindSection(k)).value) <==> !Strays(s, UnbindSection(k))
    ensures !Strays(s, UnbindSection(k)) ==> AllForward(s, Next(s, UnbindSection(k)).value)
  {
    var e, t := s.entries[k], Next(s, UnbindSection(k)).value;
    assert EntryOk(e, k);
    var found := Lookup(s, e.ref);
    if found.None? {
      ReleasedOk(e, k);
      UpdateExact(s, k, e.(lock := None));
    } else {
      var f := found.value;
      LookupFinds(s, e.ref);
      var s1 := s.(sessions := s.sessions - {e.ref.sessionID});
      UnindexedConsistent(s, e.ref.sessionID);
      CloseForGood(s1, f);
      var s2 := Update(s1, f, s.entries[f].(life := Closed));
      assert t == Update(s2, k, s2.entries[k].(lock := None));
      if Consistent(s2) {
        assert EntryOk(s2.entries[k], k);
        ReleasedOk(s2.entries[k], k);
        UpdateExact(s2, k, s2.entries[k].(lock := None));
      } else {
        assert t.entries[f] == s2.entries[f];
        assert !EntryOk(t.entries[f], f);
      }
    }
  }

  /** Every step keeps all bindings consistent if and only if it does not stray, and a step
      that does not stray only moves bindings forward. References may be bound repeatedly. */
  lemma StepExact(s: State, step: Step)
    requires Consistent(s) && Next(s, step).Some?
    ensures Consistent(Next(s, step).value) <==> !Strays(s, step)
    ensures !Strays(s, step) ==> AllForward(s, Next(s, step).value)
  {
    if !ByHolder(step) {
      OutsideKeeps(s, step);
    } else if step.CommitSection? {
      CommitExact(s, step.e);
    } else if step.CloseSection? {
      CloseExact(s, step.e);
    } else if step.UnbindSection? {
      UnbindExact(s, step.e);
    } else {
      OwnKeeps(s, step);
      UpdateExact(s, step.e, OwnAfter(s, step));
    }
    hide Consistent, EntryOk, Next, Lookup;
  }

  // ----- runs -----

  ghost predicate IsRun(states: seq<State>, steps: seq<Step>) {
    && |states| == |steps| + 1
    && states[0] == Empty
    && forall i :: 0 <= i < |steps| ==> Goes(states[i], steps[i], states[i + 1])
  }

  ghost predicate Goes(s: State, step: Step, t: State) {
    Next(s, step) == Some(t)
  }

  ghost predicate NoneStrays(states: seq<State>, steps: seq<Step>)
    requires |states| == |steps| + 1
  {
    forall i :: 0 <= i < |steps| ==> !Strays(states[i], steps[i])
  }

  lemma {:induction false} RunConsistent(states: seq<State>, steps: seq<Step>, n: nat)
    requires IsRun(states, steps) && NoneStrays(states, steps) && n <= |steps|
    ensures Consistent(states[n])
  {
    if n > 0 {
      RunConsistent(states, steps, n - 1);
      assert Goes(states[n - 1], steps[n - 1], states[n]);
      StepExact(states[n - 1], steps[n - 1]);
    }
  }

  /** All bindings stay consistent throughout a run if and only if no step of it strays. */
  lemma RunConsistentExact(states: seq<State>, steps: seq<Step>)
    requires IsRun(states, steps)
    ensures NoneStrays(states, steps) <==> forall n :: 0 <= n <= |steps| ==> Consistent(states[n])
  {
    if NoneStrays(states, steps) {
      forall n | 0 <= n <= |steps| ensures Consistent(states[n]) {
        RunConsistent(states, steps, n);
      }
    } else {
      var i :| 0 <= i < |steps| && Strays(states[i], steps[i]);
      assert Goes(states[i], steps[i], states[i + 1]);
      if Consistent(states[i]) {
        StepExact(states[i], steps[i]);
        assert !Consistent(states[i + 1]);
      }
    }
  }

  /** For each binding the state only moves forward, so once it is Closing or Closed it is
      never Active again. */
  lemma {:induction false} LifeMovesForward(states: seq<State>, steps: seq<Step>, i: nat, j: nat, k: nat)
    requires IsRun(states, steps) && NoneStrays(states, steps) && i <= j <= |steps| && k < |states[i].entries|
    ensures k < |states[j].entries| && Forward(states[i].entries[k], states[j].entries[k])
    decreases j
  {
    hide Next, Consistent, Strays, Forward;
    if i < j {
      LifeMovesForward(states, steps, i, j - 1, k);
      RunConsistent(states, steps, j - 1);
      assert Goes(states[j - 1], steps[j - 1], states[j]);
      StepExact(states[j - 1], steps[j - 1]);
      ForwardTwice(states[i].entries[k], states[j - 1].entries[k], states[j].entries[k]);
    } else {
      ForwardTwice(states[i].entries[k], states[i].entries[k], states[i].entries[k]);
    }
  }

  /** Across all racing closes of a binding, at most one snapshot says announced, and only
      after the join callback returned; and as soon as one close has succeeded, a binding
      whose join was announced has been reported. A close can therefore never precede the
      announcement of a binding it closed. */
  lemma ReportedExactlyOnce(states: seq<State>, steps: seq<Step>, n: nat, k: nat)
    requires IsRun(states, steps) && NoneStrays(states, steps) && n <= |steps| && k < |states[n].entries|
    ensures var e := states[n].entries[k];
      && e.reported <= 1
      && (e.reported == 1 <==> e.announced && e.closes > 0)
      && (e.announced ==> e.joined)
      && (e.closes > 0 ==> e.announced == e.joined)
  {
    RunConsistent(states, steps, n);
    assert EntryOk(states[n].entries[k], k);
  }

  /** The announcement is decided by the time of the first close: closing a binding that is
      not announced means it never will be, nor will a later close report it. */
  lemma NeverAnnouncedAfterClose(states: seq<State>, steps: seq<Step>, i: nat, j: nat, k: nat)
    requires IsRun(states, steps) && NoneStrays(states, steps) && i <= j <= |steps| && k < |states[i].entries|
    requires states[i].entries[k].closes > 0
    ensures k < |states[j].entries|
    ensures states[j].entries[k].announced == states[i].entries[k].announced
    ensures states[j].entries[k].reported == states[i].entries[k].reported
  {
    LifeMovesForward(states, steps, i, j, k);
    ReportedExactlyOnce(states, steps, i, k);
    ReportedExactlyOnce(states, steps, j, k);
    hide IsRun, NoneStrays, Rank;
  }

  // ----- references bound once -----

  ghost predicate DistinctRefs(s: State) {
    forall i, j :: 0 <= i < j < |s.entries| ==> s.entries[i].ref != s.entries[j].ref
  }

  /** A binding is fresh when its reference was never bound before. */
  predicate FreshBind(s: State, step: Step) {
    step.Bind? ==> forall k :: 0 <= k < |s.entries| ==> s.entries[k].ref != step.ref
  }

  lemma DistinctNeverStrays(s: State, step: Step)
    requires Indexed(s) && DistinctRefs(s)
    ensures !Strays(s, step)
  {}

  lemma OnlyBindAdds(s: State, step: Step)
    requires Next(s, step).Some? && !step.Bind?
    ensures |Next(s, step).value.entries| == |s.entries|
  {
  }

  lemma DistinctKept(s: State, step: Step)
    requires Consistent(s) && DistinctRefs(s) && FreshBind(s, step) && Next(s, step).Some?
    ensures DistinctRefs(Next(s, step).value)
  {
    if !step.Bind? {
      OnlyBindAdds(s, step);
      DistinctNeverStrays(s, step);
      StepExact(s, step);
      hide Next, Consistent, Strays, EntryOk, Rank;
      var t := Next(s, step).value;
      assert forall j :: 0 <= j < |s.entries| ==> Forward(s.entries[j], t.entries[j]);
    }
  }

  /** As long as no reference is bound twice, no step strays. */
  lemma {:induction false} FreshRunsDoNotStray(states: seq<State>, steps: seq<Step>, n: nat)
    requires IsRun(states, steps) && n <= |steps| && forall i :: 0 <= i < n ==> FreshBind(states[i], steps[i])
    ensures Consistent(states[n]) && DistinctRefs(states[n])
    ensures forall i :: 0 <= i < n ==> !Strays(states[i], steps[i])
  {
    if n > 0 {
      FreshRunsDoNotStray(states, steps, n - 1);
      var s, step := states[n - 1], steps[n - 1];
      assert Goes(s, step, states[n]);
      DistinctNeverStrays(s, step);
      StepExact(s, step);
      DistinctKept(s, step);
      hide Next, Consistent, Strays;
    }
  }

  // ----- a reference bound twice -----

  const ref0 := SessionRef(1, 1)

  /** An edge instance dies and comes back, and the same reference is bound again, while a
      close is still holding the lock of the first binding. */
  const Reused: seq<Step> := [
    RegisterEdge("edge", 1), Bind(ref0, "edge"), Acquire(0, Close),
    RemoveEdge("edge", 1), RegisterEdge("edge", 2), Bind(ref0, "edge"),
    Acquire(1, Commit(true, false)), CommitSection(1), CloseSection(0), JoinReturns(1), AnnounceSection(1)]

  function Binding(life: Life, announced: bool, lock: Option<Op>, joined: bool, closes: nat): Entry {
    Entry(ref0, "edge", life, announced, lock, joined, closes, 0)
  }

  function One(lock: Option<Op>): State {
    State(map["edge" := 1], map[1 := 0], [Binding(Syncing, false, lock, false, 0)])
  }

  function Two(lock: Option<Op>, e: Entry): State {
    State(map["edge" := 2], map[1 := 1], [Binding(Syncing, false, lock, false, 0), e])
  }

  lemma SameState(o: Option<State>, t: State)
    requires o.Some? && o.value.edges == t.edges && o.value.sessions == t.sessions && o.value.entries == t.entries
    ensures o == Some(t)
  {}

  lemma FirstBinding()
    ensures Next(Empty, RegisterEdge("edge", 1)) == Some(State(map["edge" := 1], map[], []))
    ensures Next(State(map["edge" := 1], map[], []), Bind(ref0, "edge")) == Some(One(None))
    ensures Next(One(None), Acquire(0, Close)) == Some(One(Some(Close)))
  {
    SameState(Next(Empty, RegisterEdge("edge", 1)), State(map["edge" := 1], map[], []));
    SameState(Next(State(map["edge" := 1], map[], []), Bind(ref0, "edge")), One(None));
    SameState(Next(One(None), Acquire(0, Close)), One(Some(Close)));
  }

  lemma BoundAgain(detached: State)
    requires detached == State(map[], map[], One(Some(Close)).entries)
    ensures Next(One(Some(Close)), RemoveEdge("edge", 1)) == Some(detached)
    ensures Next(detached, RegisterEdge("edge", 2)) == Some(detached.(edges := map["edge" := 2]))
    ensures Next(detached.(edges := map["edge" := 2]), Bind(ref0, "edge"))
      == Some(Two(Some(Close), Binding(Syncing, false, None, false, 0)))
  {
    SameState(Next(One(Some(Close)), RemoveEdge("edge", 1)), detached);
    SameState(Next(detached, RegisterEdge("edge", 2)), detached.(edges := map["edge" := 2]));
    SameState(Next(detached.(edges := map["edge" := 2]), Bind(ref0, "edge")),
      Two(Some(Close), Binding(Syncing, false, None, false, 0)));
  }

  lemma CloseOvertakesJoin()
    ensures Next(Two(Some(Close), Binding(Syncing, false, None, false, 0)), Acquire(1, Commit(true, false)))
         == Some(Two(Some(Close), Binding(Syncing, false, Some(Commit(true, false)), false, 0)))
    ensures Next(Two(Some(Close), Binding(Syncing, false, Some(Commit(true, false)), false, 0)), CommitSection(1))
         == Some(Two(Some(Close), Binding(Active, false, Some(Announcing(1, 1)), false, 0)))
    ensures Next(Two(Some(Close), Binding(Active, false, Some(Announcing(1, 1)), false, 0)), CloseSection(0))
         == Some(Two(None, Binding(Closing, false, Some(Announcing(1, 1)), false, 1)))
  {
    var s0 := Two(Some(Close), Binding(Syncing, false, None, false, 0));
    var s1 := Two(Some(Close), Binding(Syncing, false, Some(Commit(true, false)), false, 0));
    var s2 := Two(Some(Close), Binding(Active, false, Some(Announcing(1, 1)), false, 0));
    SameState(Next(s0, Acquire(1, Commit(true, false))), s1);
    SameState(Next(s1, CommitSection(1)), s2);
    SameState(Next(s2, CloseSection(0)), Two(None, Binding(Closing, false, Some(Announcing(1, 1)), false, 1)));
  }

  lemma JoinFinishesClosed()
    ensures Next(Two(None, Binding(Closing, false, Some(Announcing(1, 1)), false, 1)), JoinReturns(1))
         == Some(Two(None, Binding(Closing, false, Some(Joined(1, 1)), true, 1)))
    ensures Next(Two(None, Binding(Closing, false, Some(Joined(1, 1)), true, 1)), AnnounceSection(1))
         == Some(Two(None, Binding(Closing, true, None, true, 1)))
  {
    var s3 := Two(None, Binding(Closing, false, Some(Announcing(1, 1)), false, 1));
    var s4 := Two(None, Binding(Closing, false, Some(Joined(1, 1)), true, 1));
    SameState(Next(s3, JoinReturns(1)), s4);
    SameState(Next(s4, AnnounceSection(1)), Two(None, Binding(Closing, true, None, true, 1)));
  }

  /** If a reference is bound twice the guarantee is lost: the close under the old binding's
      lock reaches the new binding between its activation and its announcement, so the
      session ends up announced and closed without any close having reported it. */
  lemma ReusedReferenceLosesLeave() returns (states: seq<State>)
    ensures IsRun(states, Reused) && |states[11].entries| == 2
    ensures var e := states[11].entries[1]; e.announced && e.closes == 1 && e.reported == 0
  {
    hide Next;
    var detached := State(map[], map[], One(Some(Close)).entries);
    FirstBinding();
    BoundAgain(detached);
    CloseOvertakesJoin();
    JoinFinishesClosed();
    states := [
      Empty, State(map["edge" := 1], map[], []), One(None), One(Some(Close)),
      detached, detached.(edges := map["edge" := 2]),
      Two(Some(Close), Binding(Syncing, false, None, false, 0)),
      Two(Some(Close), Binding(Syncing, false, Some(Commit(true, false)), false, 0)),
      Two(Some(Close), Binding(Active, false, Some(Announcing(1, 1)), false, 0)),
      Two(None, Binding(Closing, false, Some(Announcing(1, 1)), false, 1)),
      Two(None, Binding(Closing, false, Some(Joined(1, 1)), true, 1)),
      Two(None, Binding(Closing, true, None, true, 1))];
    hide Two, One, Binding;
    forall i | 0 <= i < |Reused| ensures Next(states[i], Reused[i]) == Some(states[i + 1]) {
      assert i in {0, 1, 2, 3, 4, 5, 6, 7, 8, 9, 10};
    }
  }

  // ----- the registry object -----

  datatype Error = InvalidSession | EdgeNotFound | SessionBound | StaleSession | InvalidState

  /** The maps and entries as the locked sections change them; an entry pointer is its index
      in `entries`. */
  class SessionRegistry {
    var edges: map<EdgeID, nat>
    var sessions: map<nat, nat>
    var entries: seq<Entry>

    function Value(): State
      reads this
    {
      State(edges, sessions, entries)
    }

    ghost predicate Valid()
      reads this
    {
      Indexed(Value())
    }

    constructor ()
      ensures Valid() && Value() == Empty
    {
      edges, sessions, entries := map[], map[], [];
    }

    method AddEdge(id: EdgeID, generation: nat) returns (err: Option<Error>)
      modifies this
      ensures Some(Value()) == Next(old(Value()), RegisterEdge(id, generation))
      ensures err.None? <==> id in edges && edges[id] == generation && id != "" && generation != 0
    {
      if id == "" || generation == 0 { return Some(EdgeNotFound); }
      if id in edges && edges[id] != generation { return Some(SessionBound); }
      edges := edges[id := generation];
      return None;
    }

    method BindSession(ref: SessionRef, edge: EdgeID) returns (err: Option<Error>)
      requires Valid()
      modifies this
      ensures Valid() && Some(Value()) == Next(old(Value()), Bind(ref, edge))
      ensures err.None? <==> ValidRef(ref) && edge in edges && ref.sessionID in sessions
                             && entries[sessions[ref.sessionID]].ref == ref
                               && entries[sessions[ref.sessionID]].edge == edge
    {
      if !ValidRef(ref) { return Some(InvalidSession); }
      if edge !in edges { return Some(EdgeNotFound); }
      if ref.sessionID in sessions {
        var e := entries[sessions[ref.sessionID]];
        if e.ref == ref && e.edge == edge { return None; }
        return Some(SessionBound);
      }
      sessions := sessions[ref.sessionID := |entries|];
      entries := entries + [Entry(ref, edge, Syncing, false, None, false, 0, 0)];
      return None;
    }

    /** beginClose and the release of the lock: the answer is the snapshot's Announced flag. */
    method BeginClose(k: nat) returns (announced: Result<bool, Error>)
      requires Valid() && k < |entries| && entries[k].lock == Some(Close)
      modifies this
      ensures Some(Value()) == Next(old(Value()), CloseSection(k))
      ensures announced.Ok? <==> Lookup(old(Value()), old(entries[k].ref)).Some?
      ensures announced.Ok? ==>
        var found := Lookup(old(Value()), old(entries[k].ref)).value;
        found < |entries| && announced.value == (entries[found].reported > old(entries)[found].reported)
    {
      var ref := entries[k].ref;
      if ref.sessionID !in sessions || entries[sessions[ref.sessionID]].ref != ref {
        entries := entries[k := entries[k].(lock := None)];
        return Err(StaleSession);
      }
      var found := sessions[ref.sessionID];
      var e := entries[found];
      if e.life == Closing || e.life == Closed {
        announced := Ok(false);
        entries := entries[found := e.(closes := e.closes + 1)];
      } else {
        announced := Ok(e.announced);
        entries := entries[found := e.(life := Closing, closes := e.closes + 1,
          reported := e.reported + if e.announced then 1 else 0)];
      }
      entries := entries[k := entries[k].(lock := None)];
    }

    /** commitActive and what follows it up to the callback. */
    method CommitActive(k: nat) returns (err: Option<Error>)
      requires Valid() && k < |entries| && entries[k].lock.Some? && entries[k].lock.value.Commit?
      modifies this
      ensures Some(Value()) == Next(old(Value()), CommitSection(k))
      ensures err.None? <==>
        exists found :: Lookup(old(Value()), old(entries[k].ref)) == Some(found) && old(entries)[found].life == Syncing
    {
      var ref, op := entries[k].ref, entries[k].lock.value;
      if ref.sessionID !in sessions || entries[sessions[ref.sessionID]].ref != ref {
        err := Some(StaleSession);
      } else if entries[sessions[ref.sessionID]].life != Syncing {
        err := Some(InvalidState);
      } else {
        var found := sessions[ref.sessionID];
        entries := entries[found := entries[found].(life := Active)];
        if op.announce {
          entries := entries[k := entries[k].(lock := Some(Announcing(found, if op.viaControl then found else k)))];
          return None;
        }
        err := None;
      }
      entries := entries[k := entries[k].(lock := None)];
    }

    /** unbind and the release of the lock. */
    method Detach(k: nat) returns (err: Option<Error>)
      requires Valid() && k < |entries| && (entries[k].lock == Some(Unbind) || entries[k].lock == Some(Cleaning))
      modifies this
      ensures Some(Value()) == Next(old(Value()), UnbindSection(k))
      ensures err.None? <==> Lookup(old(Value()), old(entries[k].ref)).Some?
    {
      var ref := entries[k].ref;
      if ref.sessionID !in sessions || entries[sessions[ref.sessionID]].ref != ref {
        err := Some(StaleSession);
      } else {
        var found := sessions[ref.sessionID];
        entries := entries[found := entries[found].(life := Closed)];
        sessions := sessions - {ref.sessionID};
        err := None;
      }
      entries := entries[k := entries[k].(lock := None)];
    }

    /** The entries of a dead edge instance are detached, untouched, and their references
        returned; the rest of the index stays. */
    method DropEdge(id: EdgeID, generation: nat) returns (removed: seq<SessionRef>)
      requires Valid()
      modifies this
      ensures Some(Value()) == Next(old(Value()), RemoveEdge(id, generation))
      ensures forall i :: i in old(sessions) ==> (i !in sessions <==> old(entries)[old(sessions)[i]].ref in removed)
    {
      removed := [];
      if id !in edges || edges[id] != generation { return; }
      edges := edges - {id};
      sessions, removed := WithoutEdge(sessions, entries, id);
    }
  }

  /** Deletes the sessions of an edge while going through the map in an arbitrary order. */
  method WithoutEdge(sessions: map<nat, nat>, entries: seq<Entry>, id: EdgeID)
    returns (kept: map<nat, nat>, removed: seq<SessionRef>)
    requires Indexed(State(map[], sessions, entries))
    ensures kept == NotOnEdge(sessions, entries, id)
    ensures forall i :: i in sessions ==> (i !in kept <==> entries[sessions[i]].ref in removed)
  {
    var numbers: seq<nat>;
    kept, numbers := DropOnEdge(sessions, entries, id);
    removed := seq(|numbers|, n requires 0 <= n < |numbers| => entries[sessions[numbers[n]]].ref);
    forall i | i in sessions ensures i !in kept <==> entries[sessions[i]].ref in removed {
      if i !in kept {
        var n :| 0 <= n < |numbers| && numbers[n] == i;
        assert removed[n] == entries[sessions[i]].ref;
      }
    }
  }

  method DropOnEdge(sessions: map<nat, nat>, entries: seq<Entry>, id: EdgeID)
      returns (kept: map<nat, nat>, numbers: seq<nat>)
    ensures kept == NotOnEdge(sessions, entries, id)
    ensures forall n :: 0 <= n < |numbers| ==> numbers[n] in sessions && numbers[n] !in kept
    ensures forall i :: i in sessions && i !in kept ==> i in numbers
  {
    hide OnEdge;
    kept, numbers := sessions, [];
    var todo := sessions.Keys;
    while todo != {}
      invariant todo <= kept.Keys <= sessions.Keys
      invariant forall i :: i in kept ==> kept[i] == sessions[i]
      invariant forall i :: i in sessions && i !in todo ==> (i in kept <==> !OnEdge(sessions, entries, id, i))
      invariant forall n :: 0 <= n < |numbers| ==> numbers[n] in sessions && numbers[n] !in kept
      invariant forall i :: i in sessions && i !in kept ==> i in numbers
      decreases |todo|
    {
      var sid :| sid in todo;
      if OnEdge(sessions, entries, id, sid) {
        numbers := numbers + [sid];
        kept := kept - {sid};
      }
      todo := todo - {sid};
    }
  }
}
