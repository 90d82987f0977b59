/** What the session registry shows after each of its sections (internal/cluster/registry.go):
    which references are bound, to which edge, and in which state. */
module RegistryEffects {
  import opened Results
  import opened Sessions
  import opened Registry
  import Routing

  datatype View = View(edge: EdgeID, life: Life, announced: bool)

  /** The binding found under a reference. */
  function Shown(s: State, ref: SessionRef): Option<View> {
    if ref.sessionID in s.sessions && s.sessions[ref.sessionID] < |s.entries|
       && s.entries[s.sessions[ref.sessionID]].ref == ref
    then
      var e := s.entries[s.sessions[ref.sessionID]];
      Some(View(e.edge, e.life, e.announced))
    else None
  }

  ghost predicate OthersShown(s: State, t: State, ref: SessionRef) {
    t.edges == s.edges && forall r :: r != ref ==> Shown(t, r) == Shown(s, r)
  }

  ghost predicate NothingShown(s: State, t: State) {
    t.edges == s.edges && forall r :: Shown(t, r) == Shown(s, r)
  }

  /** A valid reference whose number is free is bound to a registered edge, syncing and not
      announced; anything else is refused without a trace. */
  lemma BindShows(s: State, ref: SessionRef, edge: EdgeID)
    requires Indexed(s)
    ensures var t := Next(s, Bind(ref, edge)).value;
      if ref.sessionID != 0 && ref.generation != 0 && edge in s.edges && ref.sessionID !in s.sessions
      then Shown(t, ref) == Some(View(edge, Syncing, false)) && OthersShown(s, t, ref)
      else t == s
  {}

  /** A commit activates the binding of the reference it holds, exactly if that is syncing. */
  lemma CommitShows(s: State, k: nat)
    requires Indexed(s) && Next(s, CommitSection(k)).Some?
    ensures var t, ref := Next(s, CommitSection(k)).value, s.entries[k].ref;
      if Shown(s, ref).Some? && Shown(s, ref).value.life == Syncing
      then Shown(t, ref) == Some(Shown(s, ref).value.(life := Active)) && OthersShown(s, t, ref)
      else NothingShown(s, t)
  {}

  /** A close takes a syncing or active binding to Closing and leaves any other as it is. */
  lemma CloseShows(s: State, k: nat)
    requires Indexed(s) && Next(s, CloseSection(k)).Some?
    ensures var t, ref := Next(s, CloseSection(k)).value, s.entries[k].ref;
      if Shown(s, ref).Some? && (Shown(s, ref).value.life == Syncing || Shown(s, ref).value.life == Active)
      then Shown(t, ref) == Some(Shown(s, ref).value.(life := Closing)) && OthersShown(s, t, ref)
      else NothingShown(s, t)
  {}

  /** The first half of a close with unbinding does the same, for the very binding locked. */
  lemma CloseUnbindShows(s: State, k: nat)
    requires Indexed(s) && Next(s, CloseUnbindSection(k)).Some?
    ensures var t, ref := Next(s, CloseUnbindSection(k)).value, s.entries[k].ref;
      if ref.sessionID in s.sessions && s.sessions[ref.sessionID] == k
      then Shown(t, ref) == Some(Shown(s, ref).value.(life := Closing)) && OthersShown(s, t, ref)
      else NothingShown(s, t)
  {}

  /** An unbind leaves no binding of the reference and its number free. */
  lemma UnbindShows(s: State, k: nat)
    requires Indexed(s) && Next(s, UnbindSection(k)).Some?
    ensures var t, ref := Next(s, UnbindSection(k)).value, s.entries[k].ref;
      && Shown(t, ref).None? && OthersShown(s, t, ref)
      && (Shown(s, ref).Some? ==> ref.sessionID !in t.sessions)
  {}

  /** Taking a lock, giving up and returning from the join show nothing; the end of an
      announcement shows the binding announced if it is still the live one. */
  lemma AnnounceShows(s: State, step: Step)
    requires Indexed(s) && Next(s, step).Some?
    requires step.Acquire? || step.Abandon? || step.JoinReturns? || step.AnnounceSection?
    ensures var t := Next(s, step).value;
      if step.AnnounceSection?
      then
        var x := s.entries[step.e].lock.value.marks;
        var ref := s.entries[x].ref;
        && OthersShown(s, t, ref)
        && Shown(t, ref) ==
           if ref.sessionID in s.sessions && s.sessions[ref.sessionID] == x
           then Some(Shown(s, ref).value.(announced := true)) else Shown(s, ref)
      else NothingShown(s, t)
  {}

  /** An edge is registered under its name with one generation at a time. */
  lemma RegisterShows(s: State, id: EdgeID, generation: nat)
    ensures var t := Next(s, RegisterEdge(id, generation)).value;
      && (id != "" && generation != 0 && (id in s.edges ==> s.edges[id] == generation) ==>
            t == s.(edges := s.edges[id := generation]))
      && (id == "" || generation == 0 || (id in s.edges && s.edges[id] != generation) ==> t == s)
  {}

  /** Removing an edge instance takes away exactly the bindings to it, whatever their state;
      another generation of the edge is not touched. */
  lemma RemoveEdgeShows(s: State, id: EdgeID, generation: nat)
    requires Indexed(s)
    ensures var t := Next(s, RemoveEdge(id, generation)).value;
      if id in s.edges && s.edges[id] == generation
      then
        && t.edges == s.edges - {id}
        && forall r :: Shown(t, r) ==
             if Shown(s, r).Some? && Shown(s, r).value.edge == id then None else Shown(s, r)
      else t == s
  {}

  /** Voice reaches exactly the sessions shown as active, on the edge shown. */
  lemma ReachedOnEdge(s: State, ref: SessionRef, edge: EdgeID)
    ensures Routing.EdgeOf(s, ref) == Some(edge) <==>
            exists announced :: Shown(s, ref) == Some(View(edge, Active, announced))
  {
    if Routing.EdgeOf(s, ref) == Some(edge) {
      var k := s.sessions[ref.sessionID];
      assert Shown(s, ref) == Some(View(edge, Active, s.entries[k].announced));
    }
  }
}
