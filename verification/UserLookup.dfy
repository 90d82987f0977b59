/** What the user manager shows after each operation (internal/user/manager.go): who is found
    under a number or a name, and what was stored for them. */
module UserLookup {
  import opened Results
  import opened Sessions
  import opened UserManager

  /** The user found under a session number, and under a name. */
  function ByNumber(s: State, sid: nat): Option<User> {
    if sid in s.bySession && s.bySession[sid] < |s.records| then Some(s.records[s.bySession[sid]]) else None
  }

  function ByName(s: State, name: string): Option<User> {
    if name in s.byName && s.byName[name] < |s.records| then Some(s.records[s.byName[name]]) else None
  }

  /** Nobody but the user with this number is affected. */
  ghost predicate OthersUntouched(s: State, t: State, sid: nat) {
    && (forall other :: other != sid ==> ByNumber(t, other) == ByNumber(s, other))
    && (forall name :: ByName(s, name).Some? && ByName(s, name).value.sessionID != sid ==>
          ByName(t, name) == ByName(s, name))
  }

  /** Both lookups are two views of the same users. */
  lemma SameUsers(s: State, sid: nat, name: string)
    requires Inv(s)
    ensures ByNumber(s, sid).Some? ==>
      ByNumber(s, sid).value.sessionID == sid && ByName(s, ByNumber(s, sid).value.name) == ByNumber(s, sid)
    ensures ByName(s, name).Some? ==>
      ByName(s, name).value.name == name && ByNumber(s, ByName(s, name).value.sessionID) == ByName(s, name)
  {
    hide Partition, Generations;
  }

  /** Two numbers never lead to the same record. */
  lemma ApartByNumber(s: State, a: nat, b: nat)
    requires Inv(s) && a in s.bySession && b in s.bySession && a != b
    ensures s.bySession[a] != s.bySession[b] && s.bySession[a] < |s.records| && s.bySession[b] < |s.records|
  {
    hide Partition, Generations;
  }

  /** The user as it was handed over, under the number, generation and first revision. */
  predicate Entered(user: User, sid: nat, generation: nat, stored: User) {
    stored == User(sid, generation, 1, user.name, user.authority, user.profile)
  }

  lemma NumberIsNew(p: Pool)
    requires Partition(p) && Alloc(p).1.Some?
    ensures Alloc(p).1.value !in p.inUse
  {}

  /** The number freed last is the first to be used again. */
  lemma FreedIsReused(p: Pool, sid: nat)
    requires Partition(p) && sid in p.inUse && (p.max > 0 ==> |p.inUse| <= p.max)
    ensures Alloc(Free(p, sid)) == (p, Some(sid))
  {
    var q := Free(p, sid);
    assert q.free[..|q.free| - 1] == p.free && q.inUse + {sid} == p.inUse;
  }

  /** After a successful Add the user is found under its name and under the number assigned,
      one that nobody had, with everything it brought; nobody else is affected. */
  lemma AddStores(s: State, user: User) returns (sid: nat)
    requires Inv(s) && Added(s, user).1
    ensures var t := Added(s, user).0;
      && ByNumber(s, sid).None? && ByName(s, user.name).None?
      && ByNumber(t, sid).Some? && Entered(user, sid, s.generation + 1, ByNumber(t, sid).value)
      && ByName(t, user.name) == ByNumber(t, sid) && OthersUntouched(s, t, sid)
      && t.issued == s.issued + [SessionRef(sid, s.generation + 1)] && t.maxUsers == s.maxUsers
  {
    sid := Alloc(s.pool).1.value;
    NumberIsNew(s.pool);
    hide Alloc, Partition, Generations;
    var t := Added(s, user).0;
    assert t == Stored(s, user, Alloc(s.pool).0, sid);
    forall other | other != sid ensures ByNumber(t, other) == ByNumber(s, other) {
      assert other in s.bySession ==> s.bySession[other] < |s.records|;
    }
  }

  /** A refused Add shows nothing new. */
  lemma RefusedAddShowsNothing(s: State, user: User, sid: nat, name: string)
    requires !Added(s, user).1
    ensures var t := Added(s, user).0;
      ByNumber(t, sid) == ByNumber(s, sid) && ByName(t, name) == ByName(s, name) && t.issued == s.issued
  {
    hide Alloc;
  }

  /** After Remove nobody is found under the number or under the name its user had, and nobody
      else is affected; a number nobody has changes nothing. */
  lemma RemoveForgets(s: State, sid: nat)
    requires Inv(s)
    ensures var t := Next(s, Remove(sid));
      && ByNumber(t, sid).None? && OthersUntouched(s, t, sid)
      && (ByNumber(s, sid).Some? ==> ByName(t, ByNumber(s, sid).value.name).None?)
      && (ByNumber(s, sid).None? ==> t == s)
  {
    hide Free, Partition, Generations;
  }

  /** The callback's user, except that generation and revision are the manager's: the revision
      grows by one exactly if something authorization-relevant changed. */
  predicate Replaced(before: User, asked: User, now: User) {
    && now.sessionID == asked.sessionID && now.name == asked.name
    && now.authority == asked.authority && now.profile == asked.profile
    && now.generation == before.generation
    && now.revision == before.revision + (if asked.authority == before.authority then 0 else 1)
  }

  /** UpdateUser stores what the callback made of the user, for that user alone. */
  lemma UpdateStores(s: State, sid: nat, fn: User -> User)
    requires Inv(s) && Disciplined(s, UpdateUser(sid, fn))
    ensures var t, was := Next(s, UpdateUser(sid, fn)), ByNumber(s, sid);
      if was.None? then t == s
      else
        && ByNumber(t, sid).Some? && Replaced(was.value, fn(was.value), ByNumber(t, sid).value)
        && ByName(t, was.value.name) == ByNumber(t, sid) && OthersUntouched(s, t, sid)
  {
    hide Partition, Generations;
    if ByNumber(s, sid).Some? {
      var t := Next(s, UpdateUser(sid, fn));
      forall other | other != sid ensures ByNumber(t, other) == ByNumber(s, other) {
        if other in s.bySession { ApartByNumber(s, sid, other); }
      }
    }
  }

  /** UpdateIdentity does so too, unless another user has the new name; afterwards the user is
      found under the new name and nobody under the old one. */
  lemma IdentityStores(s: State, sid: nat, fn: User -> User)
    requires Inv(s) && Disciplined(s, UpdateIdentity(sid, fn))
    ensures var t, was := Next(s, UpdateIdentity(sid, fn)), ByNumber(s, sid);
      if was.None? then t == s
      else
        var asked := fn(was.value);
        if ByName(s, asked.name).Some? && ByName(s, asked.name).value.sessionID != sid then t == s
        else
          && ByNumber(t, sid).Some? && Replaced(was.value, asked, ByNumber(t, sid).value)
          && ByName(t, asked.name) == ByNumber(t, sid)
          && (asked.name != was.value.name ==> ByName(t, was.value.name).None?)
          && OthersUntouched(s, t, sid)
  {
    hide Partition, Generations;
    if ByNumber(s, sid).Some? {
      var t := Next(s, UpdateIdentity(sid, fn));
      forall other | other != sid ensures ByNumber(t, other) == ByNumber(s, other) {
        if other in s.bySession { ApartByNumber(s, sid, other); }
      }
    }
  }

  /** The operations by reference do what those by number do for the user of that generation,
      and nothing for an older one. */
  lemma ByReference(s: State, ref: SessionRef, fn: User -> User)
    ensures var user := ByNumber(s, ref.sessionID);
      var live := user.Some? && user.value.generation == ref.generation;
      && Next(s, RemoveIfGeneration(ref)) == (if live then Next(s, Remove(ref.sessionID)) else s)
      && Next(s, UpdateIdentityRef(ref, fn)) == (if live then Next(s, UpdateIdentity(ref.sessionID, fn)) else s)
  {}
}
