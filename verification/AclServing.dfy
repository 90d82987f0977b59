/** That the permission cache serves (internal/acl/evaluator.go): an undisturbed call is
    answered by the evaluation, what it stored stays until the next invalidation, and every
    later call for the same key is answered from it. */
module AclServing {
  import opened Results
  import opened AclCache
  import opened AclEarly

  // ----- an undisturbed call -----

  /** The one new answer, checked, with what was stored for it. */
  ghost predicate Answered(s: State, u: State, t: nat, call: Call, key: Key, a: Answer) {
    && |u.given| == |s.given| + 1 && u.given[..|s.given|] == s.given
    && u.given[|s.given|].Checked? && u.given[|s.given|].call == call && u.given[|s.given|].answer == a
    && (if call.cached then key in u.cache && u.cache[key].answer == a else u.cache == s.cache)
    && u.worlds == s.worlds && u.generation == s.generation && t !in u.threads
  }

  lemma {:induction false} AdvanceOn(p: Program, w: World, n: nat)
    requires p.Read?
    ensures Advance(p, w, n + 1) == Advance(p.next(w(p.cell)), w, n)
  {
    if n > 0 {
      AdvanceOn(p, w, n - 1);
    }
  }

  lemma FinishAnswers(ev: Evaluator, s: State, t: nat)
    requires t in s.threads && s.threads[t].Reading? && s.threads[t].gen == s.generation && s.threads[t].rest.Done?
    ensures var th := s.threads[t]; var u := FinishStep(s, t, th);
      Leads(ev, s, [Finish(t)], u) && Answered(s, u, t, th.call, th.key, th.rest.answer)
  {
    var u := FinishStep(s, t, s.threads[t]);
    assert Leads(ev, u, [], u);
    LeadsStep(ev, s, Finish(t), u, [], u);
    assert [Finish(t)] + [] == [Finish(t)];
  }

  lemma {:induction false} ReadingAnswers(ev: Evaluator, s: State, t: nat, n: nat, a: Answer)
    returns (steps: seq<Step>, u: State)
    requires s.worlds != [] && t in s.threads && s.threads[t].Reading? && s.threads[t].gen == s.generation
    requires Advance(s.threads[t].rest, s.worlds[Now(s)], n) == Done(a)
    ensures Leads(ev, s, steps, u) && Answered(s, u, t, s.threads[t].call, s.threads[t].key, a)
    decreases n
  {
    var th, w := s.threads[t], s.worlds[Now(s)];
    if th.rest.Read? {
      assert n > 0;
      AdvanceOn(th.rest, w, n - 1);
      var v := ReadStep(s, t, th);
      steps, u := ReadingAnswers(ev, v, t, n - 1, a);
      LeadsStep(ev, s, ReadNext(t), v, steps, u);
      steps := [ReadNext(t)] + steps;
    } else {
      Settled(th.rest, w, n);
      FinishAnswers(ev, s, t);
      steps, u := [Finish(t)], FinishStep(s, t, th);
    }
  }

  lemma {:induction false} Settled(p: Program, w: World, n: nat)
    requires !p.Read?
    ensures Advance(p, w, n) == p
  {
    if n > 0 {
      Settled(p, w, n - 1);
    }
  }

  /** A call that nothing disturbs ends, with the answer of the evaluation in the current
      world for the caller as it is there; a cached call stores it. */
  lemma UndisturbedCallAnswers(ev: Evaluator, s: State, t: nat, call: Call, key: Key, a: Answer)
    returns (steps: seq<Step>, u: State)
    requires s.worlds != [] && t !in s.threads && (call.cached ==> key !in s.cache)
    requires ev.resolve(call, s.worlds[Now(s)]) == Known(key) && Evaluates(ev.program(key), s.worlds[Now(s)], a)
    ensures Leads(ev, s, steps, u) && Answered(s, u, t, call, key, a)
  {
    var s1 := Restart(s, t, call);
    var s2 := ResolveStep(ev, s1, t, s1.threads[t]);
    var s3 := LookupStep(ev, s2, t, s2.threads[t]);
    assert Next(ev, s, Begin(t, call)) == Some(s1) && Next(ev, s1, Resolve(t)) == Some(s2)
      && Next(ev, s2, Lookup(t)) == Some(s3);
    var n: nat :| Advance(ev.program(key), s.worlds[Now(s)], n) == Done(a);
    var rest;
    rest, u := ReadingAnswers(ev, s3, t, n, a);
    hide Leads, Next;
    LeadsStep(ev, s2, Lookup(t), s3, rest, u);
    LeadsStep(ev, s1, Resolve(t), s2, [Lookup(t)] + rest, u);
    LeadsStep(ev, s, Begin(t, call), s1, [Resolve(t)] + ([Lookup(t)] + rest), u);
    steps := [Begin(t, call)] + ([Resolve(t)] + ([Lookup(t)] + rest));
  }

  // ----- what is stored stays -----

  ghost predicate Undropped(steps: seq<Step>) {
    forall i :: 0 <= i < |steps| ==> !steps[i].Invalidate?
  }

  /** Only a finishing call changes what is cached, and only an invalidation removes any. */
  lemma StepKeepsEntries(ev: Evaluator, s: State, step: Step, key: Key)
    requires Next(ev, s, step).Some? && !step.Invalidate? && key in s.cache
    ensures var u := Next(ev, s, step).value;
      && u.generation == s.generation && key in u.cache && (!step.Finish? ==> u.cache == s.cache)
  {
    hide Replay;
  }

  lemma {:induction false} EntriesStay(ev: Evaluator, s: State, steps: seq<Step>, u: State, key: Key)
    requires Leads(ev, s, steps, u) && Undropped(steps) && key in s.cache
    ensures u.generation == s.generation && key in u.cache
    ensures (forall i :: 0 <= i < |steps| ==> !steps[i].Finish?) ==> u.cache == s.cache
    decreases |steps|
  {
    hide Next;
    if steps != [] {
      StepKeepsEntries(ev, s, steps[0], key);
      EntriesStay(ev, Next(ev, s, steps[0]).value, steps[1..], u, key);
    }
  }

  /** Once an answer is stored, every cached call for its key that read the generation since
      is answered at its lookup, from the cache and without any read, until the next
      invalidation; by that very answer if no other evaluation has finished meanwhile. */
  lemma ServedFromCache(ev: Evaluator, s: State, steps: seq<Step>, u: State, t: nat)
    requires Leads(ev, s, steps, u) && Undropped(steps) && t in u.threads && u.threads[t].Resolved?
    requires u.threads[t].call.cached && u.threads[t].gen == s.generation && u.threads[t].key in s.cache
    ensures Next(ev, u, Lookup(t)).Some?
    ensures var key, v := u.threads[t].key, Next(ev, u, Lookup(t)).value;
      && key in u.cache && v.cache == u.cache && t !in v.threads
      && |v.given| == |u.given| + 1 && v.given[|u.given|].answer == u.cache[key].answer
      && v.given[|u.given|].call == u.threads[t].call
      && ((forall i :: 0 <= i < |steps| ==> !steps[i].Finish?) ==>
            v.given[|u.given|].answer == s.cache[key].answer)
  {
    EntriesStay(ev, s, steps, u, u.threads[t].key);
  }

  /** A caller who is unknown gets nothing, and a superuser the full answer, whatever is
      cached. */
  lemma OthersAnsweredEarly(ev: Evaluator, s: State, t: nat, call: Call) returns (u: State)
    requires s.worlds != [] && t !in s.threads && !ev.resolve(call, s.worlds[Now(s)]).Known?
    ensures Leads(ev, s, [Begin(t, call)] + ([Resolve(t)] + [Leave(t)]), u)
    ensures |u.given| == |s.given| + 1 && u.given[|s.given|].call == call && u.cache == s.cache
    ensures u.given[|s.given|].answer == if ev.resolve(call, s.worlds[Now(s)]).SuperUser? then ev.superAnswer else 0
  {
    var s1 := Restart(s, t, call);
    var s2 := ResolveStep(ev, s1, t, s1.threads[t]);
    u := LeaveStep(s2, t, s2.threads[t]);
    assert Next(ev, s, Begin(t, call)) == Some(s1) && Next(ev, s1, Resolve(t)) == Some(s2)
      && Next(ev, s2, Leave(t)) == Some(u);
    assert Leads(ev, u, [], u);
    hide Next, Leads;
    LeadsStep(ev, s2, Leave(t), u, [], u);
    assert [Leave(t)] + [] == [Leave(t)];
    LeadsStep(ev, s1, Resolve(t), s2, [Leave(t)], u);
    LeadsStep(ev, s, Begin(t, call), s1, [Resolve(t)] + [Leave(t)], u);
  }
}
