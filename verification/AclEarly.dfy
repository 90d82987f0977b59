/** The answers a permission call gives without its final check (internal/acl/evaluator.go):
    for a superuser, an unknown caller or a failed evaluation. Exactly which calls can still
    give one that rests on an old lookup after the change was invalidated. */
module AclEarly {
  import opened Results
  import opened AclCache

  // ----- where an evaluation can still go -----

  /** The program after these values were read. */
  function Feed(p: Program, values: seq<Value>): Program
    decreases |values|
  {
    if values == [] || !p.Read? then p else Feed(p.next(values[0]), values[1..])
  }

  /** Some values make the evaluation fail. */
  ghost predicate CanFail(p: Program) {
    exists values :: Feed(p, values).Fails?
  }

  lemma CanFailNext(p: Program, v: Value)
    requires p.Read? && CanFail(p.next(v))
    ensures CanFail(p)
  {
    var values :| Feed(p.next(v), values).Fails?;
    assert ([v] + values)[1..] == values;
    assert Feed(p, [v] + values).Fails?;
  }

  lemma FailsCanFail(p: Program)
    requires p.Fails?
    ensures CanFail(p)
  {
    assert Feed(p, []).Fails?;
  }

  // ----- runs from any state -----

  ghost predicate Leads(ev: Evaluator, s: State, steps: seq<Step>, u: State)
    decreases |steps|
  {
    if steps == [] then s == u
    else Next(ev, s, steps[0]).Some? && Leads(ev, Next(ev, s, steps[0]).value, steps[1..], u)
  }

  lemma LeadsStep(ev: Evaluator, s: State, step: Step, v: State, rest: seq<Step>, u: State)
    requires Next(ev, s, step) == Some(v) && Leads(ev, v, rest, u)
    ensures Leads(ev, s, [step] + rest, u)
  {
    assert ([step] + rest)[1..] == rest;
  }

  /** Thread t looked its caller up before change c and can still leave without a check. */
  ghost predicate Unfenced(ev: Evaluator, s: State, t: nat, c: nat) {
    t in s.threads && Stuck(ev, s.threads[t], c)
  }

  ghost predicate Stuck(ev: Evaluator, th: Thread, c: nat) {
    match th
    case Begun(_, _, _) => false
    case Resolved(call, _, _, resolvedAt, key) => resolvedAt < c && !call.cached && CanFail(ev.program(key))
    case Reading(_, _, _, resolvedAt, _, rest, _) => resolvedAt < c && CanFail(rest)
    case Leaving(_, _, resolvedAt, _, _, _) => resolvedAt < c
  }

  /** The answer is an early one of thread t, resting on a lookup made before change c. */
  predicate Outdated(g: Given, t: nat, c: nat) {
    g.Early? && g.thread == t && g.resolvedAt < c
  }

  ghost predicate GivesOutdated(ev: Evaluator, s: State, t: nat, c: nat) {
    exists steps, u, k :: Leads(ev, s, steps, u) && |s.given| <= k < |u.given| && Outdated(u.given[k], t, c)
  }

  // ----- the others cannot -----

  /** One step of thread t itself. */
  lemma OwnStep(ev: Evaluator, s: State, t: nat, c: nat, step: Step)
    requires Inv(ev, s) && c <= s.invalidatedAt && !Unfenced(ev, s, t, c) && Next(ev, s, step).Some?
    requires !step.Change? && !step.Invalidate? && step.t == t
    ensures var u := Next(ev, s, step).value;
      && !Unfenced(ev, u, t, c)
      && (|u.given| > |s.given| ==> !Outdated(u.given[|s.given|], t, c))
  {
    var u := Next(ev, s, step).value;
    if t in s.threads {
      assert ThreadOk(ev, s, s.threads[t]);
      var th := s.threads[t];
      hide Inv, CanFail, Replay, From;
      match step {
        case ReadNext(_) =>
          var v := s.worlds[Now(s)](th.rest.cell);
          if CanFail(th.rest.next(v)) { CanFailNext(th.rest, v); }
        case Finish(_) => if th.rest.Fails? { FailsCanFail(th.rest); }
        case _ =>
      }
    }
  }

  lemma OtherStep(ev: Evaluator, s: State, t: nat, c: nat, step: Step)
    requires Inv(ev, s) && c <= s.invalidatedAt && !Unfenced(ev, s, t, c) && Next(ev, s, step).Some?
    requires step.Change? || step.Invalidate? || step.t != t
    ensures var u := Next(ev, s, step).value;
      && !Unfenced(ev, u, t, c)
      && (|u.given| > |s.given| ==> !Outdated(u.given[|s.given|], t, c))
  {
    hide Inv, Stuck;
  }

  lemma {:induction false} FencedForever(ev: Evaluator, s: State, t: nat, c: nat, steps: seq<Step>, u: State)
    requires Inv(ev, s) && c <= s.invalidatedAt && !Unfenced(ev, s, t, c) && Leads(ev, s, steps, u)
    ensures s.given <= u.given && forall k :: |s.given| <= k < |u.given| ==> !Outdated(u.given[k], t, c)
    decreases |steps|
  {
    if steps != [] {
      var v := Next(ev, s, steps[0]).value;
      StepHistory(ev, s, steps[0]);
      if !steps[0].Change? && !steps[0].Invalidate? && steps[0].t == t {
        OwnStep(ev, s, t, c, steps[0]);
      } else {
        OtherStep(ev, s, t, c, steps[0]);
      }
      StepKeepsInv(ev, s, steps[0]);
      hide Inv, Next, Unfenced, Outdated;
      FencedForever(ev, v, t, c, steps[1..], u);
      assert forall k :: |s.given| <= k < |v.given| ==> u.given[k] == v.given[k];
    }
  }

  // ----- those that can, do -----

  /** The run ends with this early answer of thread t. */
  ghost predicate Delivers(ev: Evaluator, s: State, t: nat, c: nat, steps: seq<Step>, u: State) {
    Leads(ev, s, steps, u) && |u.given| == |s.given| + 1 && Outdated(u.given[|s.given|], t, c)
  }

  lemma DeliversLater(ev: Evaluator, s: State, t: nat, c: nat, step: Step, v: State, rest: seq<Step>, u: State)
    requires Next(ev, s, step) == Some(v) && v.given == s.given && Delivers(ev, v, t, c, rest, u)
    ensures Delivers(ev, s, t, c, [step] + rest, u)
  {
    LeadsStep(ev, s, step, v, rest, u);
  }

  lemma LeavingDelivers(ev: Evaluator, s: State, t: nat, c: nat) returns (steps: seq<Step>, u: State)
    requires t in s.threads && s.threads[t].Leaving? && s.threads[t].resolvedAt < c
    ensures Delivers(ev, s, t, c, steps, u)
  {
    u := LeaveStep(s, t, s.threads[t]);
    steps := [Leave(t)];
    assert Leads(ev, u, [], u);
    LeadsStep(ev, s, Leave(t), u, [], u);
    assert [Leave(t)] + [] == [Leave(t)];
  }

  /** The world may change before each read, so any values can come up. */
  lemma {:induction false} ReadingDelivers(ev: Evaluator, s: State, t: nat, c: nat, values: seq<Value>)
      returns (steps: seq<Step>, u: State)
    requires s.worlds != [] && t in s.threads && s.threads[t].Reading? && s.threads[t].resolvedAt < c
    requires Feed(s.threads[t].rest, values).Fails?
    ensures Delivers(ev, s, t, c, steps, u)
    decreases |values|
  {
    var th := s.threads[t];
    if th.rest.Fails? {
      var v := FinishStep(s, t, th);
      var rest;
      rest, u := LeavingDelivers(ev, v, t, c);
      steps := [Finish(t)] + rest;
      DeliversLater(ev, s, t, c, Finish(t), v, rest, u);
    } else {
      var w: World := cell => values[0];
      var v1 := s.(worlds := s.worlds + [w]);
      var v2 := ReadStep(v1, t, th);
      var rest;
      rest, u := ReadingDelivers(ev, v2, t, c, values[1..]);
      hide Feed, Delivers;
      DeliversLater(ev, v1, t, c, ReadNext(t), v2, rest, u);
      DeliversLater(ev, s, t, c, Change(w), v1, [ReadNext(t)] + rest, u);
      steps := [Change(w)] + ([ReadNext(t)] + rest);
    }
  }

  lemma UnfencedDelivers(ev: Evaluator, s: State, t: nat, c: nat) returns (steps: seq<Step>, u: State)
    requires s.worlds != [] && Unfenced(ev, s, t, c)
    ensures Delivers(ev, s, t, c, steps, u)
  {
    var th := s.threads[t];
    if th.Leaving? {
      steps, u := LeavingDelivers(ev, s, t, c);
    } else if th.Reading? {
      var values :| Feed(th.rest, values).Fails?;
      steps, u := ReadingDelivers(ev, s, t, c, values);
    } else {
      var v := LookupStep(ev, s, t, th);
      var values :| Feed(ev.program(th.key), values).Fails?;
      var rest;
      rest, u := ReadingDelivers(ev, v, t, c, values);
      hide Delivers, Feed;
      DeliversLater(ev, s, t, c, Lookup(t), v, rest, u);
      steps := [Lookup(t)] + rest;
    }
  }

  /** After the invalidation of change c, a thread can still give an early answer that rests
      on a lookup made before c if and only if it made that lookup in its present pass and is
      already leaving, or is reading, or about to read uncached, an evaluation that can fail. */
  lemma OutdatedExact(ev: Evaluator, s: State, t: nat, c: nat)
    requires Inv(ev, s) && c <= s.invalidatedAt
    ensures GivesOutdated(ev, s, t, c) <==> Unfenced(ev, s, t, c)
  {
    if Unfenced(ev, s, t, c) {
      var steps, u := UnfencedDelivers(ev, s, t, c);
      assert Leads(ev, s, steps, u) && |s.given| <= |s.given| < |u.given| && Outdated(u.given[|s.given|], t, c);
    } else if GivesOutdated(ev, s, t, c) {
      var steps, u, k :| Leads(ev, s, steps, u) && |s.given| <= k < |u.given| && Outdated(u.given[k], t, c);
      FencedForever(ev, s, t, c, steps, u);
    }
  }

  /** In every run, an early answer of a call begun, or of a pass begun anew, after the
      invalidation of change c rests on a lookup and on reads no older than c. */
  lemma LaterCallsAnswerFresh(ev: Evaluator, states: seq<State>, taken: seq<Step>, n: nat, t: nat, c: nat,
                              steps: seq<Step>, u: State, k: nat)
    requires IsRun(ev, states, taken) && n <= |taken| && c <= states[n].invalidatedAt
    requires t !in states[n].threads || states[n].threads[t].Begun?
    requires Leads(ev, states[n], steps, u) && |states[n].given| <= k < |u.given|
    requires u.given[k].Early? && u.given[k].thread == t
    ensures var g := u.given[k];
      && c <= g.resolvedAt && From(g.seen, c)
      && EarlyOk(ev, u, g.call, g.since, g.resolvedAt, g.outcome, g.seen, g.answer)
  {
    RunKeepsInv(ev, states, taken, n);
    FencedForever(ev, states[n], t, c, steps, u);
    LeadsKeepsInv(ev, states[n], steps, u);
    var g := u.given[k];
    assert GivenOk(ev, u, g);
    hide Replay, Leads, IsRun;
    FromLater(g.seen, g.resolvedAt, c);
  }

  lemma {:induction false} LeadsKeepsInv(ev: Evaluator, s: State, steps: seq<Step>, u: State)
    requires Inv(ev, s) && Leads(ev, s, steps, u)
    ensures Inv(ev, u)
    decreases |steps|
  {
    hide Inv, Next;
    if steps != [] {
      StepKeepsInv(ev, s, steps[0]);
      LeadsKeepsInv(ev, Next(ev, s, steps[0]).value, steps[1..], u);
    }
  }

  /** A case: a caller found to be the superuser is told so although that has been revoked,
      and the revocation's invalidation has run, before the answer. */
  lemma RevokedSuperUserAnswered(ev: Evaluator, before: World, after: World, call: Call) returns (states: seq<State>)
    requires ev.resolve(call, before) == SuperUser && ev.resolve(call, after) != SuperUser
    ensures IsRun(ev, states, [Begin(0, call), Resolve(0), Change(after), Invalidate, Leave(0)])
    ensures states[4].invalidatedAt == 1 && states[4].worlds == [before, after]
    ensures |states[5].given| == 1 && Outdated(states[5].given[0], 0, 1) && states[5].given[0].answer == ev.superAnswer
    ensures ev.resolve(call, states[5].worlds[Now(states[5])]) != SuperUser
  {
    var s0 := Start(before);
    var s1 := Restart(s0, 0, call);
    var s2 := Put(s1, 0, Leaving(call, 0, 0, SuperUser, [], ev.superAnswer));
    var s3 := s2.(worlds := [before, after]);
    assert s2.worlds + [after] == s3.worlds;
    var s4 := Invalidated(s3);
    var s5 := LeaveStep(s4, 0, s4.threads[0]);
    assert Next(ev, s0, Begin(0, call)) == Some(s1);
    assert Next(ev, s1, Resolve(0)) == Some(s2);
    assert Next(ev, s2, Change(after)) == Some(s3);
    assert Next(ev, s3, Invalidate) == Some(s4);
    assert Next(ev, s4, Leave(0)) == Some(s5);
    states := [s0, s1, s2, s3, s4, s5];
    hide Next;
    var steps := [Begin(0, call), Resolve(0), Change(after), Invalidate, Leave(0)];
    forall i | 0 <= i < |steps| ensures Goes(ev, states[i], steps[i], states[i + 1]) {
      assert i in {0, 1, 2, 3, 4};
    }
  }
}
