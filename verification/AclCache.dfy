/** The permission cache and its optimistic generation check (internal/acl/evaluator.go), as
    a step system: calls read the world piece by piece while it changes under them, and
    every change is followed, some time later, by an invalidation. */
module AclCache {
  import opened Results

  type Cell = nat
  type Value = nat
  type World = Cell -> Value
  type Answer = nat

  /** Who a call is answered as: the resolved connection, its authorization revision and the
      channel. The evaluation depends on the caller only through it. */
  type Key = nat

  /** An evaluation: what it reads next, given everything it has read so far. */
  datatype Program = Done(answer: Answer) | Fails | Read(cell: Cell, next: Value -> Program)

  datatype Identity = Unknown | SuperUser | Known(key: Key)

  datatype Call = Call(subject: nat, channel: nat, cached: bool)

  /** The parts of the evaluator that the cache does not look into: resolving the caller
      from one snapshot of the users, and the evaluation itself. */
  datatype Evaluator = Evaluator(resolve: (Call, World) -> Identity, program: Key -> Program, superAnswer: Answer)

  /** A value read, and when: `time` counts the changes of the world. */
  datatype Seen = Seen(cell: Cell, time: nat)

  datatype Entry = Entry(answer: Answer, seen: seq<Seen>)

  /** One pass of the retry loop. `since` is when the generation was read, `resolvedAt` when
      the caller was looked up. */
  datatype Thread =
    | Begun(call: Call, gen: nat, since: nat)
    | Resolved(call: Call, gen: nat, since: nat, resolvedAt: nat, key: Key)
    | Reading(call: Call, gen: nat, since: nat, resolvedAt: nat, key: Key, rest: Program, seen: seq<Seen>)
    | Leaving(call: Call, since: nat, resolvedAt: nat, outcome: Identity, seen: seq<Seen>, early: Answer)

  /** An answer with the lookup and the reads it rests on. A checked one carries the latest
      invalidation before it was given; an early one, of the thread named, was not checked. */
  datatype Given =
    | Checked(call: Call, resolvedAt: nat, key: Key, answer: Answer, seen: seq<Seen>, invalidatedAt: nat)
    | Early(thread: nat, call: Call, since: nat, resolvedAt: nat, outcome: Identity, seen: seq<Seen>, answer: Answer)

  /** `worlds` holds the world after each change; the last one is current. */
  datatype State = State(
    worlds: seq<World>, generation: nat, invalidatedAt: nat, cache: map<Key, Entry>,
    threads: map<nat, Thread>, given: seq<Given>)

  function Start(w: World): State {
    State([w], 0, 0, map[], map[], [])
  }

  function Now(s: State): nat {
    if |s.worlds| == 0 then 0 else |s.worlds| - 1
  }

  /** `Reread` is the top of the retry loop, some time after the check that failed. */
  datatype Step =
    | Change(world: World)
    | Invalidate
    | Begin(t: nat, call: Call)
    | Reread(t: nat)
    | Resolve(t: nat)
    | Lookup(t: nat)
    | ReadNext(t: nat)
    | Finish(t: nat)
    | Leave(t: nat)

  function Put(s: State, t: nat, th: Thread): State {
    s.(threads := s.threads[t := th])
  }

  function Give(s: State, t: nat, g: Given): State {
    s.(threads := s.threads - {t}, given := s.given + [g])
  }

  function Restart(s: State, t: nat, call: Call): State {
    Put(s, t, Begun(call, s.generation, Now(s)))
  }

  function ResolveStep(ev: Evaluator, s: State, t: nat, th: Thread): State
    requires th.Begun? && s.worlds != []
  {
    match ev.resolve(th.call, s.worlds[Now(s)])
    case Unknown => Put(s, t, Leaving(th.call, th.since, Now(s), Unknown, [], 0))
    case SuperUser => Put(s, t, Leaving(th.call, th.since, Now(s), SuperUser, [], ev.superAnswer))
    case Known(key) => Put(s, t, Resolved(th.call, th.gen, th.since, Now(s), key))
  }

  function LookupStep(ev: Evaluator, s: State, t: nat, th: Thread): State
    requires th.Resolved?
  {
    if !th.call.cached then Put(s, t, Reading(th.call, th.gen, th.since, th.resolvedAt, th.key, ev.program(th.key), []))
    else if th.gen != s.generation then Restart(s, t, th.call)
    else if th.key in s.cache then
      Give(s, t, Checked(th.call, th.resolvedAt, th.key, s.cache[th.key].answer, s.cache[th.key].seen, s.invalidatedAt))
    else Put(s, t, Reading(th.call, th.gen, th.since, th.resolvedAt, th.key, ev.program(th.key), []))
  }

  function ReadStep(s: State, t: nat, th: Thread): State
    requires th.Reading? && th.rest.Read? && s.worlds != []
  {
    Put(s, t, th.(rest := th.rest.next(s.worlds[Now(s)](th.rest.cell)), seen := th.seen + [Seen(th.rest.cell, Now(s))]))
  }

  function FinishStep(s: State, t: nat, th: Thread): State
    requires th.Reading? && !th.rest.Read?
  {
    if th.rest.Fails? then Put(s, t, Leaving(th.call, th.since, th.resolvedAt, Known(th.key), th.seen, 0))
    else if th.gen != s.generation then Restart(s, t, th.call)
    else
      var s' := if th.call.cached then s.(cache := s.cache[th.key := Entry(th.rest.answer, th.seen)]) else s;
      Give(s', t, Checked(th.call, th.resolvedAt, th.key, th.rest.answer, th.seen, s.invalidatedAt))
  }

  function LeaveStep(s: State, t: nat, th: Thread): State
    requires th.Leaving?
  {
    Give(s, t, Early(t, th.call, th.since, th.resolvedAt, th.outcome, th.seen, th.early))
  }

  /** Invalidating drops everything cached so far. */
  function Invalidated(s: State): State {
    s.(generation := s.generation + 1, cache := map[], invalidatedAt := Now(s))
  }

  function Next(ev: Evaluator, s: State, step: Step): Option<State> {
    match step
    case Change(w) => Some(s.(worlds := s.worlds + [w]))
    case Invalidate => Some(Invalidated(s))
    case Begin(t, call) => if t in s.threads then None else Some(Restart(s, t, call))
    case Reread(t) => if t in s.threads && s.threads[t].Begun? then Some(Restart(s, t, s.threads[t].call)) else None
    case Resolve(t) =>
      if t in s.threads && s.threads[t].Begun? && s.worlds != [] then Some(ResolveStep(ev, s, t, s.threads[t]))
        else None
    case Lookup(t) =>
      if t in s.threads && s.threads[t].Resolved? then Some(LookupStep(ev, s, t, s.threads[t])) else None
    case ReadNext(t) =>
      if t in s.threads && s.threads[t].Reading? && s.threads[t].rest.Read? && s.worlds != []
      then Some(ReadStep(s, t, s.threads[t])) else None
    case Finish(t) =>
      if t in s.threads && s.threads[t].Reading? && !s.threads[t].rest.Read? then
        Some(FinishStep(s, t, s.threads[t])) else None
    case Leave(t) =>
      if t in s.threads && s.threads[t].Leaving? then Some(LeaveStep(s, t, s.threads[t])) else None
  }

  // ----- what an answer rests on -----

  /** The program after it has made these reads, each from the world of its time. */
  function Replay(p: Program, worlds: seq<World>, seen: seq<Seen>): Option<Program>
    decreases |seen|
  {
    if seen == [] then Some(p)
    else
      var last := seen[|seen| - 1];
      match Replay(p, worlds, seen[..|seen| - 1])
      case None => None
      case Some(q) =>
        if q.Read? && q.cell == last.cell && last.time < |worlds| then Some(q.next(worlds[last.time](last.cell)))
          else None
  }

  /** All reads happened at `since` or later. */
  ghost predicate From(seen: seq<Seen>, since: nat) {
    forall i :: 0 <= i < |seen| ==> since <= seen[i].time
  }

  /** The evaluation after n reads of one unchanging world. */
  function Advance(p: Program, w: World, n: nat): Program {
    if n == 0 then p
    else
      var q := Advance(p, w, n - 1);
      if q.Read? then q.next(w(q.cell)) else q
  }

  /** A fresh evaluation in world w gives this answer. */
  ghost predicate Evaluates(p: Program, w: World, a: Answer) {
    exists n: nat :: Advance(p, w, n) == Done(a)
  }

  lemma {:induction false} DoneStays(p: Program, w: World, n: nat, m: nat)
    requires n <= m && Advance(p, w, n).Done?
    ensures Advance(p, w, m) == Advance(p, w, n)
    decreases m
  {
    if n < m {
      DoneStays(p, w, n, m - 1);
    }
  }

  /** A fresh evaluation has at most one answer. */
  lemma EvaluatesOnce(p: Program, w: World, a: Answer, b: Answer)
    requires Evaluates(p, w, a) && Evaluates(p, w, b)
    ensures a == b
  {
    var n: nat :| Advance(p, w, n) == Done(a);
    var m: nat :| Advance(p, w, m) == Done(b);
    if n <= m { DoneStays(p, w, n, m); } else { DoneStays(p, w, m, n); }
  }

  lemma {:induction false} ReplayGrows(p: Program, worlds: seq<World>, seen: seq<Seen>, w: World)
    requires Replay(p, worlds, seen).Some?
    ensures Replay(p, worlds + [w], seen) == Replay(p, worlds, seen)
    decreases |seen|
  {
    if seen != [] {
      ReplayGrows(p, worlds, seen[..|seen| - 1], w);
    }
  }

  /** Reads that all saw the same world lead where evaluating in that world leads. */
  lemma {:induction false} ReplayInOneWorld(p: Program, worlds: seq<World>, seen: seq<Seen>, since: nat, w: World)
    requires Replay(p, worlds, seen).Some? && From(seen, since)
    requires forall i :: since <= i < |worlds| ==> worlds[i] == w
    ensures Advance(p, w, |seen|) == Replay(p, worlds, seen).value
    decreases |seen|
  {
    if seen != [] {
      var init := seen[..|seen| - 1];
      assert From(init, since) by {
        assert forall i :: 0 <= i < |init| ==> init[i] == seen[i];
      }
      ReplayInOneWorld(p, worlds, init, since, w);
      assert worlds[seen[|seen| - 1].time] == w;
    }
  }

  // ----- the invariant -----

  ghost predicate ThreadOk(ev: Evaluator, s: State, th: Thread) {
    match th
    case Begun(_, gen, since) => Fenced(s, gen, since)
    case Resolved(call, gen, since, resolvedAt, key) =>
      Fenced(s, gen, since) && ResolvedTo(ev, s, call, since, resolvedAt, Known(key))
    case Reading(call, gen, since, resolvedAt, key, rest, seen) =>
      && Fenced(s, gen, since) && ResolvedTo(ev, s, call, since, resolvedAt, Known(key))
      && From(seen, resolvedAt) && Replay(ev.program(key), s.worlds, seen) == Some(rest)
    case Leaving(call, since, resolvedAt, outcome, seen, early) =>
      EarlyOk(ev, s, call, since, resolvedAt, outcome, seen, early)
  }

  /** The caller was looked up at `since` or later, and was then found to be this. */
  predicate ResolvedTo(ev: Evaluator, s: State, call: Call, since: nat, resolvedAt: nat, outcome: Identity) {
    since <= resolvedAt < |s.worlds| && ev.resolve(call, s.worlds[resolvedAt]) == outcome
  }

  /** What an early answer rests on: the lookup alone for a superuser or an unknown caller,
      and the reads since the lookup for an evaluation that failed. */
  ghost predicate EarlyOk(ev: Evaluator, s: State, call: Call, since: nat, resolvedAt: nat, outcome: Identity,
                          seen: seq<Seen>, answer: Answer) {
    && ResolvedTo(ev, s, call, since, resolvedAt, outcome) && From(seen, resolvedAt)
    && match outcome
       case Unknown => seen == [] && answer == 0
       case SuperUser => seen == [] && answer == ev.superAnswer
       case Known(key) => Replay(ev.program(key), s.worlds, seen) == Some(Fails) && answer == 0
  }

  /** While the generation is the one read at `since`, no invalidation came after it. */
  predicate Fenced(s: State, gen: nat, since: nat) {
    gen <= s.generation && since <= Now(s) && (gen == s.generation ==> s.invalidatedAt <= since)
  }

  ghost predicate EntryOk(ev: Evaluator, s: State, key: Key, e: Entry) {
    From(e.seen, s.invalidatedAt) && Replay(ev.program(key), s.worlds, e.seen) == Some(Done(e.answer))
  }

  ghost predicate GivenOk(ev: Evaluator, s: State, g: Given) {
    match g
    case Checked(call, resolvedAt, key, answer, seen, invalidatedAt) =>
      && invalidatedAt <= s.invalidatedAt && ResolvedTo(ev, s, call, invalidatedAt, resolvedAt, Known(key))
      && From(seen, invalidatedAt) && Replay(ev.program(key), s.worlds, seen) == Some(Done(answer))
    case Early(_, call, since, resolvedAt, outcome, seen, answer) =>
      EarlyOk(ev, s, call, since, resolvedAt, outcome, seen, answer)
  }

  ghost predicate Inv(ev: Evaluator, s: State) {
    && s.worlds != [] && s.invalidatedAt <= Now(s)
    && (forall t :: t in s.threads ==> ThreadOk(ev, s, s.threads[t]))
    && (forall key :: key in s.cache ==> EntryOk(ev, s, key, s.cache[key]))
    && (forall i :: 0 <= i < |s.given| ==> GivenOk(ev, s, s.given[i]))
  }

  lemma PutKeepsInv(ev: Evaluator, s: State, t: nat, th: Thread)
    requires Inv(ev, s) && ThreadOk(ev, s, th)
    ensures Inv(ev, Put(s, t, th))
  {
    hide Replay, From;
    var s' := Put(s, t, th);
    forall u | u in s'.threads ensures ThreadOk(ev, s', s'.threads[u]) {
      assert u != t ==> ThreadOk(ev, s, s.threads[u]);
    }
    forall key | key in s'.cache ensures EntryOk(ev, s', key, s'.cache[key]) {
      assert EntryOk(ev, s, key, s.cache[key]);
    }
    forall i | 0 <= i < |s'.given| ensures GivenOk(ev, s', s'.given[i]) {
      assert GivenOk(ev, s, s.given[i]);
    }
  }

  lemma GiveKeepsInv(ev: Evaluator, s: State, t: nat, g: Given)
    requires Inv(ev, s) && GivenOk(ev, s, g)
    ensures Inv(ev, Give(s, t, g))
  {
    hide Replay, From;
    var s' := Give(s, t, g);
    forall u | u in s'.threads ensures ThreadOk(ev, s', s'.threads[u]) {
      assert ThreadOk(ev, s, s.threads[u]);
    }
    forall key | key in s'.cache ensures EntryOk(ev, s', key, s'.cache[key]) {
      assert EntryOk(ev, s, key, s.cache[key]);
    }
    forall i | 0 <= i < |s'.given| ensures GivenOk(ev, s', s'.given[i]) {
      assert i < |s.given| ==> GivenOk(ev, s, s.given[i]);
    }
  }

  lemma StoreKeepsInv(ev: Evaluator, s: State, key: Key, e: Entry)
    requires Inv(ev, s) && EntryOk(ev, s, key, e)
    ensures Inv(ev, s.(cache := s.cache[key := e]))
  {
    hide Replay, From;
    var s' := s.(cache := s.cache[key := e]);
    forall u | u in s'.threads ensures ThreadOk(ev, s', s'.threads[u]) {
      assert ThreadOk(ev, s, s.threads[u]);
    }
    forall k | k in s'.cache ensures EntryOk(ev, s', k, s'.cache[k]) {
      assert k != key ==> EntryOk(ev, s, k, s.cache[k]);
    }
    forall i | 0 <= i < |s'.given| ensures GivenOk(ev, s', s'.given[i]) {
      assert GivenOk(ev, s, s.given[i]);
    }
  }

  lemma ChangeKeepsInv(ev: Evaluator, s: State, w: World)
    requires Inv(ev, s)
    ensures Inv(ev, s.(worlds := s.worlds + [w]))
  {
    hide Replay, From;
    var s' := s.(worlds := s.worlds + [w]);
    forall u | u in s'.threads ensures ThreadOk(ev, s', s'.threads[u]) {
      var th := s.threads[u];
      assert ThreadOk(ev, s, th);
      if th.Reading? { ReplayGrows(ev.program(th.key), s.worlds, th.seen, w); }
      if th.Leaving? && th.outcome.Known? { ReplayGrows(ev.program(th.outcome.key), s.worlds, th.seen, w); }
    }
    forall k | k in s'.cache ensures EntryOk(ev, s', k, s'.cache[k]) {
      assert EntryOk(ev, s, k, s.cache[k]);
      ReplayGrows(ev.program(k), s.worlds, s.cache[k].seen, w);
    }
    forall i | 0 <= i < |s'.given| ensures GivenOk(ev, s', s'.given[i]) {
      var g := s.given[i];
      assert GivenOk(ev, s, g);
      if g.Checked? { ReplayGrows(ev.program(g.key), s.worlds, g.seen, w); }
      if g.Early? && g.outcome.Known? { ReplayGrows(ev.program(g.outcome.key), s.worlds, g.seen, w); }
    }
  }

  lemma InvalidateKeepsInv(ev: Evaluator, s: State)
    requires Inv(ev, s)
    ensures Inv(ev, Invalidated(s))
  {
    hide Replay, From;
    var s' := Invalidated(s);
    forall u | u in s'.threads ensures ThreadOk(ev, s', s'.threads[u]) {
      assert ThreadOk(ev, s, s.threads[u]);
    }
    forall i | 0 <= i < |s'.given| ensures GivenOk(ev, s', s'.given[i]) {
      assert GivenOk(ev, s, s.given[i]);
    }
  }

  lemma FromLater(seen: seq<Seen>, since: nat, earlier: nat)
    requires From(seen, since) && earlier <= since
    ensures From(seen, earlier)
  {}

  lemma ResolveKeepsInv(ev: Evaluator, s: State, t: nat)
    requires Inv(ev, s) && t in s.threads && s.threads[t].Begun?
    ensures Inv(ev, ResolveStep(ev, s, t, s.threads[t]))
  {
    var th := s.threads[t];
    assert ThreadOk(ev, s, th);
    match ev.resolve(th.call, s.worlds[Now(s)]) {
      case Unknown => PutKeepsInv(ev, s, t, Leaving(th.call, th.since, Now(s), Unknown, [], 0));
      case SuperUser => PutKeepsInv(ev, s, t, Leaving(th.call, th.since, Now(s), SuperUser, [], ev.superAnswer));
      case Known(key) => PutKeepsInv(ev, s, t, Resolved(th.call, th.gen, th.since, Now(s), key));
    }
  }

  lemma LookupKeepsInv(ev: Evaluator, s: State, t: nat)
    requires Inv(ev, s) && t in s.threads && s.threads[t].Resolved?
    ensures Inv(ev, LookupStep(ev, s, t, s.threads[t]))
  {
    var th := s.threads[t];
    assert ThreadOk(ev, s, th);
    if th.call.cached && th.gen != s.generation {
      PutKeepsInv(ev, s, t, Begun(th.call, s.generation, Now(s)));
    } else if th.call.cached && th.key in s.cache {
      assert EntryOk(ev, s, th.key, s.cache[th.key]);
      GiveKeepsInv(ev, s, t,
        Checked(th.call, th.resolvedAt, th.key, s.cache[th.key].answer, s.cache[th.key].seen, s.invalidatedAt));
    } else {
      PutKeepsInv(ev, s, t, Reading(th.call, th.gen, th.since, th.resolvedAt, th.key, ev.program(th.key), []));
    }
  }

  lemma ReadKeepsInv(ev: Evaluator, s: State, t: nat)
    requires Inv(ev, s) && t in s.threads && s.threads[t].Reading? && s.threads[t].rest.Read?
    ensures Inv(ev, ReadStep(s, t, s.threads[t]))
  {
    var th := s.threads[t];
    assert ThreadOk(ev, s, th);
    var seen := th.seen + [Seen(th.rest.cell, Now(s))];
    assert seen[..|seen| - 1] == th.seen;
    PutKeepsInv(ev, s, t, th.(rest := th.rest.next(s.worlds[Now(s)](th.rest.cell)), seen := seen));
  }

  lemma FinishKeepsInv(ev: Evaluator, s: State, t: nat)
    requires Inv(ev, s) && t in s.threads && s.threads[t].Reading? && !s.threads[t].rest.Read?
    ensures Inv(ev, FinishStep(s, t, s.threads[t]))
  {
    hide Replay;
    var th := s.threads[t];
    assert ThreadOk(ev, s, th);
    if th.rest.Fails? {
      PutKeepsInv(ev, s, t, Leaving(th.call, th.since, th.resolvedAt, Known(th.key), th.seen, 0));
    } else if th.gen != s.generation {
      PutKeepsInv(ev, s, t, Begun(th.call, s.generation, Now(s)));
    } else {
      FromLater(th.seen, th.resolvedAt, s.invalidatedAt);
      hide From;
      var e := Entry(th.rest.answer, th.seen);
      var s' := if th.call.cached then s.(cache := s.cache[th.key := e]) else s;
      assert EntryOk(ev, s, th.key, e);
      StoreKeepsInv(ev, s, th.key, e);
      GiveKeepsInv(ev, s', t, Checked(th.call, th.resolvedAt, th.key, th.rest.answer, th.seen, s.invalidatedAt));
    }
  }

  lemma StepKeepsInv(ev: Evaluator, s: State, step: Step)
    requires Inv(ev, s) && Next(ev, s, step).Some?
    ensures Inv(ev, Next(ev, s, step).value)
  {
    hide Replay, From;
    match step {
      case Change(w) => ChangeKeepsInv(ev, s, w);
      case Invalidate => InvalidateKeepsInv(ev, s);
      case Begin(t, call) => PutKeepsInv(ev, s, t, Begun(call, s.generation, Now(s)));
      case Reread(t) => PutKeepsInv(ev, s, t, Begun(s.threads[t].call, s.generation, Now(s)));
      case Resolve(t) => ResolveKeepsInv(ev, s, t);
      case Lookup(t) => LookupKeepsInv(ev, s, t);
      case ReadNext(t) => ReadKeepsInv(ev, s, t);
      case Finish(t) => FinishKeepsInv(ev, s, t);
      case Leave(t) =>
        var th := s.threads[t];
        assert ThreadOk(ev, s, th);
        GiveKeepsInv(ev, s, t, Early(t, th.call, th.since, th.resolvedAt, th.outcome, th.seen, th.early));
    }
  }

  // ----- runs -----

  ghost predicate IsRun(ev: Evaluator, states: seq<State>, steps: seq<Step>) {
    && |states| == |steps| + 1
    && (exists w :: states[0] == Start(w))
    && forall i :: 0 <= i < |steps| ==> Goes(ev, states[i], steps[i], states[i + 1])
  }

  ghost predicate Goes(ev: Evaluator, s: State, step: Step, t: State) {
    Next(ev, s, step) == Some(t)
  }

  lemma RunGoes(ev: Evaluator, states: seq<State>, steps: seq<Step>, n: nat)
    requires IsRun(ev, states, steps) && n < |steps|
    ensures |states| == |steps| + 1 && Goes(ev, states[n], steps[n], states[n + 1])
  {}

  lemma {:induction false} RunKeepsInv(ev: Evaluator, states: seq<State>, steps: seq<Step>, n: nat)
    requires IsRun(ev, states, steps) && n <= |steps|
    ensures Inv(ev, states[n])
  {
    if n > 0 {
      RunKeepsInv(ev, states, steps, n - 1);
      assert Goes(ev, states[n - 1], steps[n - 1], states[n]);
      StepKeepsInv(ev, states[n - 1], steps[n - 1]);
    }
  }

  /** Every cached answer was computed by the evaluation of its key, from reads all made
      since the latest invalidation. */
  lemma CachedAnswersAreFresh(ev: Evaluator, states: seq<State>, steps: seq<Step>, n: nat, key: Key)
    requires IsRun(ev, states, steps) && n <= |steps| && key in states[n].cache
    ensures EntryOk(ev, states[n], key, states[n].cache[key])
  {
    RunKeepsInv(ev, states, steps, n);
  }

  /** While nothing has changed since the latest invalidation, a cached answer is the one a
      fresh evaluation in the current world gives. */
  lemma CacheAgreesWithEvaluation(ev: Evaluator, states: seq<State>, steps: seq<Step>, n: nat, key: Key)
    requires IsRun(ev, states, steps) && n <= |steps| && key in states[n].cache
    requires states[n].worlds != [] && forall i :: states[n].invalidatedAt <= i < |states[n].worlds| ==>
      states[n].worlds[i] == states[n].worlds[Now(states[n])]
    ensures Evaluates(ev.program(key), states[n].worlds[Now(states[n])], states[n].cache[key].answer)
  {
    var s := states[n];
    CachedAnswersAreFresh(ev, states, steps, n, key);
    ReplayInOneWorld(ev.program(key), s.worlds, s.cache[key].seen, s.invalidatedAt, s.worlds[Now(s)]);
    assert Advance(ev.program(key), s.worlds[Now(s)], |s.cache[key].seen|) == Done(s.cache[key].answer);
  }

  /** One step never takes an invalidation or an answer back, and an answer it adds carries
      the latest invalidation before it. */
  lemma StepHistory(ev: Evaluator, s: State, step: Step)
    requires Inv(ev, s) && Next(ev, s, step).Some?
    ensures var t := Next(ev, s, step).value;
      && s.invalidatedAt <= t.invalidatedAt && s.given <= t.given && |t.given| <= |s.given| + 1
      && (|t.given| > |s.given| && t.given[|s.given|].Checked? ==> t.given[|s.given|].invalidatedAt == s.invalidatedAt)
  {}

  /** The answer with number k was given between states i and j. */
  lemma {:induction false} AnswersAfter(ev: Evaluator, states: seq<State>, steps: seq<Step>, i: nat, j: nat, k: nat)
    requires IsRun(ev, states, steps) && i <= j <= |steps| && |states[i].given| <= k < |states[j].given|
    ensures states[j].given[k].Checked? ==> states[i].invalidatedAt <= states[j].given[k].invalidatedAt
    ensures states[i].invalidatedAt <= states[j].invalidatedAt
    decreases j
  {
    RunGoes(ev, states, steps, j - 1);
    hide Inv, Next, IsRun;
    RunKeepsInv(ev, states, steps, j - 1);
    StepHistory(ev, states[j - 1], steps[j - 1]);
    InvalidationsMoveForward(ev, states, steps, i, j - 1);
    if k < |states[j - 1].given| {
      AnswersAfter(ev, states, steps, i, j - 1, k);
    }
  }

  lemma {:induction false} InvalidationsMoveForward(ev: Evaluator, states: seq<State>, steps: seq<Step>, i: nat, j: nat)
    requires IsRun(ev, states, steps) && i <= j <= |steps|
    ensures states[i].invalidatedAt <= states[j].invalidatedAt
    decreases j
  {
    if i < j {
      RunGoes(ev, states, steps, j - 1);
      hide Inv, Next, IsRun;
      InvalidationsMoveForward(ev, states, steps, i, j - 1);
      RunKeepsInv(ev, states, steps, j - 1);
      StepHistory(ev, states[j - 1], steps[j - 1]);
    }
  }

  /** Once the invalidation of change c has run, no answer given later through the cache or
      the commit check rests on anything read before the change: neither the lookup of the
      caller nor any read of the evaluation. */
  lemma NoLaterAnswerIsStale(ev: Evaluator, states: seq<State>, steps: seq<Step>, i: nat, j: nat, k: nat, c: nat)
    requires IsRun(ev, states, steps) && i <= j <= |steps| && c <= states[i].invalidatedAt
    requires |states[i].given| <= k < |states[j].given| && states[j].given[k].Checked?
    ensures var g := states[j].given[k];
      && From(g.seen, c) && Replay(ev.program(g.key), states[j].worlds, g.seen) == Some(Done(g.answer))
      && ResolvedTo(ev, states[j], g.call, c, g.resolvedAt, Known(g.key))
  {
    RunKeepsInv(ev, states, steps, j);
    AnswersAfter(ev, states, steps, i, j, k);
    var g := states[j].given[k];
    assert GivenOk(ev, states[j], g);
    hide Replay;
    FromLater(g.seen, g.invalidatedAt, c);
  }

  // ----- the cache object -----

  function Answers(cache: map<Key, Entry>): map<Key, Answer> {
    map key | key in cache :: cache[key].answer
  }

  /** The evaluator's generation and cache under its lock; `s` is the whole system it is
      part of. */
  class PermissionCache {
    var generation: nat
    var cache: map<Key, Answer>

    /** The object holds what the step system says it holds. */
    predicate Holds(s: State)
      reads this
    {
      generation == s.generation && cache == Answers(s.cache)
    }

    constructor (ghost w: World)
      ensures Holds(Start(w))
    {
      generation, cache := 0, map[];
    }

    method Invalidate(ghost s: State)
      requires Holds(s)
      modifies this
      ensures Holds(Invalidated(s))
    {
      generation := generation + 1;
      cache := map[];
    }

    /** The locked lookup of a cached call. A hit is the answer the lookup step gives, and in
        a consistent system it was computed from reads made since the latest invalidation;
        an invalid one starts over; otherwise the evaluation begins. */
    method Find(ghost ev: Evaluator, ghost s: State, ghost t: nat, gen: nat, key: Key)
        returns (valid: bool, hit: Option<Answer>)
      requires Holds(s) && t in s.threads && s.threads[t].Resolved?
      requires s.threads[t].call.cached && s.threads[t].gen == gen && s.threads[t].key == key
      ensures var th, s' := s.threads[t], LookupStep(ev, s, t, s.threads[t]);
        && Holds(s')
        && (!valid <==> s' == Restart(s, t, th.call))
        && (valid && hit.Some? ==> |s'.given| == |s.given| + 1 && s'.given[|s.given|].answer == hit.value)
        && (valid && hit.None? ==> s'.given == s.given && t in s'.threads && s'.threads[t].Reading?)
      ensures Inv(ev, s) && valid && hit.Some? ==> Fresh(ev, s, key, hit.value)
    {
      valid := gen == generation;
      hit := if key in cache then Some(cache[key]) else None;
      RestartIsBegun(ev, s, t);
      assert valid && hit.Some? && Inv(ev, s) ==> EntryOk(ev, s, key, s.cache[key]);
    }

    /** The locked commit: the answer is given, and stored for cached calls, exactly when the
        finish step gives it; otherwise the call starts over. */
    method Commit(ghost ev: Evaluator, ghost s: State, ghost t: nat, gen: nat, cached: bool, key: Key, answer: Answer)
      returns (done: bool)
      requires Holds(s) && t in s.threads && s.threads[t].Reading? && s.threads[t].rest == Done(answer)
      requires s.threads[t].gen == gen && s.threads[t].key == key && s.threads[t].call.cached == cached
      modifies this
      ensures var th, s' := s.threads[t], FinishStep(s, t, s.threads[t]);
        && Holds(s')
        && (done ==> |s'.given| == |s.given| + 1 && s'.given[|s.given|].answer == answer && t !in s'.threads)
        && (!done ==> s' == Restart(s, t, th.call))
      ensures Inv(ev, s) && done && cached ==> Fresh(ev, s, key, answer)
    {
      if Inv(ev, s) { AnswerIsFresh(ev, s, t); }
      hide Inv, Fresh;
      if gen != generation { return false; }
      if cached { cache := cache[key := answer]; }
      return true;
    }
  }

  /** The answer was computed for the key from reads made since the latest invalidation. */
  ghost predicate Fresh(ev: Evaluator, s: State, key: Key, answer: Answer) {
    exists seen :: EntryOk(ev, s, key, Entry(answer, seen))
  }

  lemma RestartIsBegun(ev: Evaluator, s: State, t: nat)
    requires t in s.threads && s.threads[t].Resolved? && s.threads[t].call.cached
    ensures s.threads[t].gen != s.generation <==> LookupStep(ev, s, t, s.threads[t]) == Restart(s, t, s.threads[t].call)
  {
    var th := s.threads[t];
    assert Restart(s, t, th.call).threads[t].Begun?;
    if th.gen != s.generation {
    } else if th.key in s.cache {
      assert t !in LookupStep(ev, s, t, th).threads;
    } else {
      assert LookupStep(ev, s, t, th).threads[t].Reading?;
    }
  }

  lemma AnswerIsFresh(ev: Evaluator, s: State, t: nat)
    requires Inv(ev, s) && t in s.threads && s.threads[t].Reading? && s.threads[t].rest.Done?
    ensures s.threads[t].gen == s.generation ==> Fresh(ev, s, s.threads[t].key, s.threads[t].rest.answer)
  {
    var th := s.threads[t];
    assert ThreadOk(ev, s, th);
    if th.gen == s.generation {
      FromLater(th.seen, th.resolvedAt, s.invalidatedAt);
      assert EntryOk(ev, s, th.key, Entry(th.rest.answer, th.seen));
    }
  }
}
