/** Temporary group members (internal/acl/group.go): runtime membership bound to one
    connection, written under the same generation check as the permission cache and cleared
    when the connection's removal notice is handled. */
module TemporaryMembers {
  import opened Results
  import opened Sessions

  type Ref = SessionRef

  datatype GroupKey = GroupKey(channel: nat, name: string)

  datatype Members = Members(users: set<nat>, sessions: set<Ref>)

  /** A replacement in progress; `sessions` are the connections resolved so far. */
  datatype Writer = Writer(key: GroupKey, users: set<nat>, subjects: seq<Ref>, gen: nat, sessions: set<Ref>,
      resolved: nat)

  /** `live` are the connected users, `pending` those removed whose notice has not been
      handled yet, `issued` every reference the user manager ever handed out. */
  datatype State = State(
    live: set<Ref>, pending: set<Ref>, issued: set<Ref>, generation: nat,
    temporary: map<GroupKey, Members>, writers: map<nat, Writer>)

  const Empty := State({}, {}, {}, 0, map[], map[])

  datatype Step =
    | Connect(ref: Ref) | Disconnect(ref: Ref) | HandleNotice(ref: Ref)
    | Invalidate | ForgetChannels(kept: set<nat>)
    | Begin(t: nat, key: GroupKey, ids: seq<nat>, subjects: seq<Ref>)
    | ResolveMember(t: nat, ref: Ref) | Commit(t: nat) | Retry(t: nat) | Abort(t: nat)

  /** A subject without a generation stands for whoever holds the number. */
  predicate Answers(subject: Ref, ref: Ref) {
    subject.sessionID == ref.sessionID && (subject.generation == 0 || subject.generation == ref.generation)
  }

  function Without(m: Members, subject: Ref): Members {
    m.(sessions := set r | r in m.sessions && !Answers(subject, r))
  }

  predicate Bare(m: Members) { m.sessions == {} && m.users == {} }

  function Cleared(temporary: map<GroupKey, Members>, subject: Ref): map<GroupKey, Members> {
    map k | k in temporary && !Bare(Without(temporary[k], subject)) :: Without(temporary[k], subject)
  }

  function NonZero(ids: seq<nat>): set<nat> {
    set i | i in ids && i != 0
  }

  /** The registered users and connections that the replacement installs. */
  function Committed(s: State, t: nat): State
    requires t in s.writers
  {
    var w := s.writers[t];
    s.(temporary := s.temporary[w.key := Members(w.users, w.sessions)], generation := s.generation + 1,
      writers := s.writers - {t})
  }

  function Next(s: State, step: Step): Option<State> {
    match step
    case Connect(ref) =>
      if ref in s.issued || ref.generation == 0 then None
        else Some(s.(live := s.live + {ref}, issued := s.issued + {ref}))
    case Disconnect(ref) =>
      if ref !in s.live then None else Some(s.(live := s.live - {ref}, pending := s.pending + {ref}))
    case HandleNotice(ref) =>
      if ref !in s.pending then None
      else Some(s.(temporary := Cleared(s.temporary, ref), generation := s.generation + 1,
        pending := s.pending - {ref}))
    case Invalidate => Some(s.(generation := s.generation + 1))
    case ForgetChannels(kept) =>
      Some(s.(temporary := map k | k in s.temporary && k.channel in kept :: s.temporary[k],
              generation := s.generation + 1))
    case Begin(t, key, ids, subjects) =>
      if t in s.writers || key.name == "" then None
      else Some(s.(writers := s.writers[t := Writer(key, NonZero(ids), subjects, s.generation, {}, 0)]))
    case ResolveMember(t, ref) =>
      if t in s.writers && s.writers[t].resolved < |s.writers[t].subjects|
         && ref in s.live && Answers(s.writers[t].subjects[s.writers[t].resolved], ref)
      then var w := s.writers[t];
           Some(s.(writers := s.writers[t := w.(sessions := w.sessions + {ref}, resolved := w.resolved + 1)]))
      else None
    case Commit(t) =>
      if t in s.writers && s.writers[t].resolved == |s.writers[t].subjects| && s.writers[t].gen == s.generation
      then Some(Committed(s, t)) else None
    case Retry(t) =>
      if t in s.writers then
        var w := s.writers[t].(gen := s.generation, sessions := {}, resolved := 0);
        Some(s.(writers := s.writers[t := w]))
      else None
    case Abort(t) => Some(s.(writers := s.writers - {t}))
  }

  // ----- the invariant -----

  /** Still connected, or disconnected with the notice on its way. */
  ghost predicate Accounted(s: State, sessions: set<Ref>) {
    forall r :: r in sessions ==> r in s.live || r in s.pending
  }

  ghost predicate Inv(s: State) {
    && (forall r :: r in s.live || r in s.pending ==> r in s.issued && r.generation != 0)
    && s.live !! s.pending
    && (forall k :: k in s.temporary ==> Accounted(s, s.temporary[k].sessions))
    && (forall t :: t in s.writers ==> s.writers[t].gen <= s.generation
                                       && (s.writers[t].gen == s.generation ==> Accounted(s, s.writers[t].sessions)))
  }

  /** The connection is gone and its removal notice has been handled. */
  predicate Handled(s: State, r: Ref) {
    r in s.issued && r !in s.live && r !in s.pending
  }

  lemma NoticeKeepsInv(s: State, ref: Ref)
    requires Inv(s) && ref in s.pending
    ensures Inv(Next(s, HandleNotice(ref)).value)
  {
    var t := Next(s, HandleNotice(ref)).value;
    forall k | k in t.temporary ensures Accounted(t, t.temporary[k].sessions) {
      assert Accounted(s, s.temporary[k].sessions);
      assert Answers(ref, ref);
    }
  }

  lemma StepKeepsInv(s: State, step: Step)
    requires Inv(s) && Next(s, step).Some?
    ensures Inv(Next(s, step).value)
  {
    if step.HandleNotice? {
      NoticeKeepsInv(s, step.ref);
    }
  }

  // ----- runs -----

  ghost predicate IsRun(states: seq<State>, steps: seq<Step>) {
    && |states| == |steps| + 1
    && states[0] == Empty
    && forall i :: 0 <= i < |steps| ==> Goes(states[i], steps[i], states[i + 1])
  }

  ghost predicate Goes(s: State, step: Step, t: State) {
    Next(s, step) == Some(t)
  }

  lemma {:induction false} RunKeepsInv(states: seq<State>, steps: seq<Step>, n: nat)
    requires IsRun(states, steps) && n <= |steps|
    ensures Inv(states[n])
  {
    if n > 0 {
      RunKeepsInv(states, steps, n - 1);
      assert Goes(states[n - 1], steps[n - 1], states[n]);
      StepKeepsInv(states[n - 1], steps[n - 1]);
    }
  }

  lemma HandledStep(s: State, step: Step, r: Ref)
    requires Next(s, step).Some? && Handled(s, r)
    ensures Handled(Next(s, step).value, r)
  {}

  /** From the moment its removal notice has been handled, in every later state, no group
      holds a temporary entry for the removed connection, although replacements that had
      already resolved it may still be under way. */
  lemma {:induction false} NoEntryAfterNotice(states: seq<State>, steps: seq<Step>, i: nat, j: nat, r: Ref, k: GroupKey)
    requires IsRun(states, steps) && i <= j <= |steps| && Handled(states[i], r)
    ensures Handled(states[j], r)
    ensures k in states[j].temporary ==> r !in states[j].temporary[k].sessions
    decreases j
  {
    RunKeepsInv(states, steps, j);
    if i < j {
      NoEntryAfterNotice(states, steps, i, j - 1, r, k);
      assert Goes(states[j - 1], steps[j - 1], states[j]);
      HandledStep(states[j - 1], steps[j - 1], r);
      hide Next;
    }
  }

  // ----- the map as it is changed in place -----

  /** The evaluator's temporary map and generation under its lock; `s` is the whole system it
      is part of. */
  class TemporaryGroups {
    var temporary: map<GroupKey, Members>
    var generation: nat

    /** The object holds what the step system says it holds. */
    predicate Holds(s: State)
      reads this
    {
      temporary == s.temporary && generation == s.generation
    }

    constructor ()
      ensures Holds(Empty)
    {
      temporary, generation := map[], 0;
    }

    /** The locked end of a replacement whose subjects are all resolved: it succeeds exactly
        when the commit step is possible, has its effect, and installs only connections that
        are live or whose removal notice is still to come. */
    method Install(ghost s: State, ghost t: nat, gen: nat, key: GroupKey, members: Members) returns (done: bool)
      requires Holds(s) && t in s.writers && s.writers[t].resolved == |s.writers[t].subjects|
      requires s.writers[t].gen == gen && s.writers[t].key == key
        && members == Members(s.writers[t].users, s.writers[t].sessions)
      modifies this
      ensures done <==> Next(s, Commit(t)).Some?
      ensures Holds(if done then Next(s, Commit(t)).value else s)
      ensures Inv(s) && done ==> Accounted(s, members.sessions)
    {
      if generation != gen { return false; }
      temporary := temporary[key := members];
      generation := generation + 1;
      return true;
    }

    method ClearSession(subject: Ref)
      modifies this
      ensures temporary == Cleared(old(temporary), subject) && generation == old(generation) + 1
      ensures forall s :: old(Holds(s)) && subject in s.pending ==> Holds(Next(s, HandleNotice(subject)).value)
    {
      var todo := temporary.Keys;
      while todo != {}
        invariant todo <= temporary.Keys && generation == old(generation)
        invariant forall k :: k in todo ==> k in old(temporary) && temporary[k] == old(temporary)[k]
        invariant forall k :: k in old(temporary) && k !in todo ==>
          (k in temporary <==> !Bare(Without(old(temporary)[k], subject)))
        invariant forall k :: k in temporary && k !in todo ==>
          k in old(temporary) && temporary[k] == Without(old(temporary)[k], subject)
        decreases |todo|
      {
        var key :| key in todo;
        var sessions := DropSessions(temporary[key].sessions, subject);
        var members := temporary[key].(sessions := sessions);
        assert members == Without(temporary[key], subject);
        temporary := temporary[key := members];
        if sessions == {} && members.users == {} { temporary := temporary - {key}; }
        todo := todo - {key};
      }
      generation := generation + 1;
    }
  }

  method DropSessions(sessions: set<Ref>, subject: Ref) returns (kept: set<Ref>)
    ensures kept == set r | r in sessions && !Answers(subject, r)
  {
    kept := sessions;
    var todo := sessions;
    while todo != {}
      invariant todo <= kept <= sessions
      invariant forall r :: r in sessions && r !in todo ==> (r in kept <==> !Answers(subject, r))
      decreases |todo|
    {
      var r :| r in todo;
      if r.sessionID == subject.sessionID && (subject.generation == 0 || r.generation == subject.generation) {
        kept := kept - {r};
      }
      todo := todo - {r};
    }
  }
}
