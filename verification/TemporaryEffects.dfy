/** What temporary membership shows (internal/acl/group.go): a replacement installs exactly
    what it was asked for, and a removal notice takes away exactly the removed connection. */
module TemporaryEffects {
  import opened Results
  import opened Sessions
  import opened TemporaryMembers

  /** The connection r stands for the subject asked for. */
  predicate StandsFor(r: Ref, subject: Ref) {
    r.sessionID == subject.sessionID && (subject.generation != 0 ==> r.generation == subject.generation)
  }

  ghost predicate Asked(r: Ref, subjects: seq<Ref>, n: nat)
    requires n <= |subjects|
  {
    exists i :: 0 <= i < n && StandsFor(r, subjects[i])
  }

  ghost predicate Found(subject: Ref, sessions: set<Ref>) {
    exists r :: r in sessions && StandsFor(r, subject)
  }

  /** Of the first n subjects every one has a connection, and every connection stands for one
      of them. */
  ghost predicate Fits(sessions: set<Ref>, subjects: seq<Ref>, n: nat)
    requires n <= |subjects|
  {
    && (forall r :: r in sessions ==> Asked(r, subjects, n))
    && (forall i :: 0 <= i < n ==> Found(subjects[i], sessions))
  }

  ghost predicate WriterFits(w: Writer) {
    w.resolved <= |w.subjects| && Fits(w.sessions, w.subjects, w.resolved)
  }

  ghost predicate WritersFit(s: State) {
    forall t :: t in s.writers ==> WriterFits(s.writers[t])
  }

  lemma AskedMore(x: Ref, subjects: seq<Ref>, n: nat)
    requires n < |subjects| && (Asked(x, subjects, n) || StandsFor(x, subjects[n]))
    ensures Asked(x, subjects, n + 1)
  {
    hide StandsFor;
  }

  lemma FoundMore(subject: Ref, sessions: set<Ref>, r: Ref)
    requires Found(subject, sessions) || StandsFor(r, subject)
    ensures Found(subject, sessions + {r})
  {
    hide StandsFor;
    assert r in sessions + {r};
  }

  lemma FitsNext(sessions: set<Ref>, subjects: seq<Ref>, n: nat, r: Ref)
    requires n < |subjects| && Fits(sessions, subjects, n) && StandsFor(r, subjects[n])
    ensures Fits(sessions + {r}, subjects, n + 1)
  {
    hide StandsFor, Asked, Found;
    forall x | x in sessions + {r} ensures Asked(x, subjects, n + 1) {
      AskedMore(x, subjects, n);
    }
    forall i | 0 <= i < n + 1 ensures Found(subjects[i], sessions + {r}) {
      FoundMore(subjects[i], sessions, r);
    }
  }

  lemma StepFits(s: State, step: Step)
    requires WritersFit(s) && Next(s, step).Some?
    ensures WritersFit(Next(s, step).value)
  {
    hide Fits, Cleared, NonZero;
    match step {
      case ResolveMember(t, ref) =>
        var w := s.writers[t];
        assert WriterFits(w) && StandsFor(ref, w.subjects[w.resolved]);
        FitsNext(w.sessions, w.subjects, w.resolved, ref);
      case Begin(_, _, _, subjects) => NothingFits(subjects);
      case Retry(t) => NothingFits(s.writers[t].subjects);
      case _ =>
    }
  }

  lemma NothingFits(subjects: seq<Ref>)
    ensures Fits({}, subjects, 0)
  {}

  lemma {:induction false} RunFits(states: seq<State>, steps: seq<Step>, n: nat)
    requires IsRun(states, steps) && n <= |steps|
    ensures WritersFit(states[n])
  {
    if n > 0 {
      RunFits(states, steps, n - 1);
      assert Goes(states[n - 1], steps[n - 1], states[n]);
      hide WritersFit, Next;
      StepFits(states[n - 1], steps[n - 1]);
    }
  }

  /** In every run, a replacement that commits installs, for its group alone, the users it was
      given and one or more connections for exactly the subjects it was given; and every one
      of them is connected, or its removal notice is still to come. */
  lemma CommitInstalls(states: seq<State>, steps: seq<Step>, n: nat, t: nat)
    requires IsRun(states, steps) && n < |steps| && steps[n] == Commit(t)
    ensures var s, u := states[n], states[n + 1];
      && t in s.writers
      && var w := s.writers[t];
         && w.key in u.temporary && u.temporary[w.key].users == w.users
         && Fits(u.temporary[w.key].sessions, w.subjects, |w.subjects|) && Accounted(u, u.temporary[w.key].sessions)
         && u.temporary - {w.key} == s.temporary - {w.key} && u.generation == s.generation + 1
  {
    RunFits(states, steps, n);
    RunKeepsInv(states, steps, n);
    assert Goes(states[n], steps[n], states[n + 1]);
    hide Fits;
    assert WriterFits(states[n].writers[t]);
  }

  /** What a replacement was given: the registered users and the subjects it began with. */
  lemma BeginTakesOver(s: State, t: nat, key: GroupKey, ids: seq<nat>, subjects: seq<Ref>)
    requires Next(s, Begin(t, key, ids, subjects)).Some?
    ensures var w := Next(s, Begin(t, key, ids, subjects)).value.writers[t];
      w.key == key && w.subjects == subjects && forall i :: i in w.users <==> i in ids && i != 0
  {}

  lemma OrdersKept(s: State, step: Step, t: nat)
    requires Next(s, step).Some? && t in s.writers && t in Next(s, step).value.writers
    ensures var a, b := s.writers[t], Next(s, step).value.writers[t];
      a.key == b.key && a.users == b.users && a.subjects == b.subjects
  {
    hide Cleared;
  }

  /** Handling a removal notice takes exactly that connection out of every group and drops the
      groups that are then empty. */
  lemma NoticeClearsExactly(s: State, ref: Ref, k: GroupKey, r: Ref)
    requires Inv(s) && ref in s.pending
    ensures var u := Next(s, HandleNotice(ref)).value;
      && (k in u.temporary ==>
            k in s.temporary && u.temporary[k].users == s.temporary[k].users
            && (r in u.temporary[k].sessions <==> r in s.temporary[k].sessions && r != ref))
      && (k in s.temporary && k !in u.temporary ==> s.temporary[k].users == {} && s.temporary[k].sessions <= {ref})
      && (k in s.temporary && (s.temporary[k].users != {} || (r in s.temporary[k].sessions && r != ref)) ==>
            k in u.temporary)
  {
    assert ref.generation != 0;
    if k in s.temporary {
      var rest := Without(s.temporary[k], ref);
      assert forall x :: x in rest.sessions <==> x in s.temporary[k].sessions && x != ref;
      if rest.sessions == {} {
        forall x | x in s.temporary[k].sessions ensures x == ref {
          assert x !in rest.sessions;
        }
      }
    }
  }
}
