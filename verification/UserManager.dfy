/** The manager of connected users and its pool of session numbers (internal/user/manager.go).
    A stored record is shared by two indexes; a record pointer is its index in `records`. */
module UserManager {
  import opened Results
  import opened Sessions

  /** What authorizationChanged compares. */
  datatype Authority = Authority(
    userID: nat, channelID: nat, superUser: bool, certHash: string, verified: bool, external: bool,
    identityVersion: nat, policyVersion: nat, tokens: seq<string>, groups: seq<string>)

  datatype User = User(
    sessionID: nat, generation: nat, revision: nat, name: string, authority: Authority, profile: string)

  // ----- session numbers -----

  /** `next` and the second bound are 32-bit numbers and wrap; `max` is a 64-bit one. */
  datatype Pool = Pool(next: nat, free: seq<nat>, inUse: set<nat>, max: int)

  function Alloc(p: Pool): (Pool, Option<nat>) {
    if p.max > 0 && |p.inUse| >= p.max then (p, None)
    else if p.free != [] then
      var sid := p.free[|p.free| - 1];
      (p.(free := p.free[..|p.free| - 1], inUse := p.inUse + {sid}), Some(sid))
    else
      var q := p.(next := (p.next + 1) % 0x1_0000_0000);
      if p.max > 0 && p.next >= p.max * 2 % 0x1_0000_0000 then (q, None)
      else (q.(inUse := q.inUse + {p.next}), Some(p.next))
  }

  function Free(p: Pool, sid: nat): Pool {
    if sid !in p.inUse then p else p.(inUse := p.inUse - {sid}, free := p.free + [sid])
  }

  /** Used and free numbers partition 1 .. next-1. */
  ghost predicate Partition(p: Pool) {
    && 1 <= p.next < 0x1_0000_0000
    && (forall i, j :: 0 <= i < j < |p.free| ==> p.free[i] != p.free[j])
    && (forall i :: 0 <= i < |p.free| ==> p.free[i] !in p.inUse && 1 <= p.free[i] < p.next)
    && (forall sid :: sid in p.inUse ==> 1 <= sid < p.next)
    && (forall sid {:trigger sid in p.inUse} {:trigger sid in p.free} :: 1 <= sid < p.next ==>
      sid in p.inUse || sid in p.free)
    && |p.inUse| + |p.free| == p.next - 1
  }

  lemma ReuseKeepsPartition(p: Pool)
    requires Partition(p) && p.free != []
    ensures var sid := p.free[|p.free| - 1];
      && sid !in p.inUse && 1 <= sid
      && Partition(p.(free := p.free[..|p.free| - 1], inUse := p.inUse + {sid}))
  {
    var last := |p.free| - 1;
    var q := p.(free := p.free[..last], inUse := p.inUse + {p.free[last]});
    forall x | 1 <= x < q.next ensures x in q.inUse || x in q.free {
      assert x in p.inUse || x in p.free;
      assert p.free == q.free + [p.free[last]];
    }
  }

  lemma FreshKeepsPartition(p: Pool)
    requires Partition(p) && p.free == [] && p.next + 1 < 0x1_0000_0000
    ensures p.next !in p.inUse && p.next == |p.inUse| + 1
    ensures Partition(p.(next := p.next + 1, inUse := p.inUse + {p.next}))
  {}

  /** The number is unused and the partition is kept, as long as the second bound is not
      reached and the counter does not wrap. */
  lemma AllocFromPartition(p: Pool)
    requires Partition(p) && (p.max > 0 ==> |p.inUse| < p.max && |p.inUse| + 1 < p.max * 2 % 0x1_0000_0000)
    requires |p.inUse| + 2 < 0x1_0000_0000
    ensures var (q, sid) := Alloc(p);
      && sid.Some? && sid.value !in p.inUse && 1 <= sid.value
      && q.inUse == p.inUse + {sid.value} && q.max == p.max && Partition(q)
  {
    if p.free != [] {
      ReuseKeepsPartition(p);
    } else {
      assert p.next == |p.inUse| + 1;
      FreshKeepsPartition(p);
    }
    hide Partition;
  }

  lemma FreeKeepsPartition(p: Pool, sid: nat)
    requires Partition(p)
    ensures Partition(Free(p, sid)) && Free(p, sid).inUse == p.inUse - {sid} && Free(p, sid).max == p.max
  {
    if sid in p.inUse {
      var q := Free(p, sid);
      assert q.free[|p.free|] == sid;
      forall x | 1 <= x < q.next ensures x in q.inUse || x in q.free {
        assert x in p.inUse || x in p.free;
        if x in p.free {
          var i :| 0 <= i < |p.free| && p.free[i] == x;
          assert q.free[i] == x;
        }
      }
    }
  }

  // ----- the manager -----

  /** `issued` lists every reference handed out so far. */
  datatype State = State(
    records: seq<User>, bySession: map<nat, nat>, byName: map<string, nat>,
    pool: Pool, maxUsers: int, generation: nat, issued: seq<SessionRef>)

  function Empty(maxUsers: int): State {
    State([], map[], map[], Pool(1, [], {}, maxUsers * 2), maxUsers, 0, [])
  }

  datatype Step =
    | Add(user: User)
    | Remove(sid: nat)
    | RemoveIfGeneration(ref: SessionRef)
    | UpdateUser(sid: nat, fn: User -> User)
    | UpdateIdentity(sid: nat, fn: User -> User)
    | UpdateIdentityRef(ref: SessionRef, fn: User -> User)

  predicate Refused(s: State, user: User) {
    user.name in s.byName || (s.maxUsers > 0 && |s.bySession| >= s.maxUsers)
  }

  function Added(s: State, user: User): (State, bool) {
    if Refused(s, user) then (s, false)
    else
      var (pool, sid) := Alloc(s.pool);
      if sid.None? then (s.(pool := pool), false)
      else (Stored(s, user, pool, sid.value), true)
  }

  function Stored(s: State, user: User, pool: Pool, sid: nat): State {
    var stored := user.(sessionID := sid, generation := s.generation + 1, revision := 1);
    s.(records := s.records + [stored], pool := pool, generation := s.generation + 1,
       bySession := s.bySession[sid := |s.records|], byName := s.byName[stored.name := |s.records|],
       issued := s.issued + [SessionRef(sid, s.generation + 1)])
  }

  function Held(s: State, sid: nat): Option<nat> {
    if sid in s.bySession && s.bySession[sid] < |s.records| then Some(s.bySession[sid]) else None
  }

  function Removed(s: State, sid: nat): State {
    match Held(s, sid)
    case None => s
    case Some(p) =>
      s.(bySession := s.bySession - {sid}, byName := s.byName - {s.records[p].name}, pool := Free(s.pool, sid))
  }

  /** The revision grows exactly when something authorization-relevant changed. */
  function Revised(before: User, after: User): User {
    after.(generation := before.generation,
           revision := if before.authority != after.authority then before.revision + 1 else before.revision)
  }

  function Updated(s: State, sid: nat, fn: User -> User): State {
    match Held(s, sid)
    case None => s
    case Some(p) => s.(records := s.records[p := Revised(s.records[p], fn(s.records[p]))])
  }

  predicate Collides(s: State, sid: nat, name: string) {
    name in s.byName && s.byName[name] < |s.records| && s.records[s.byName[name]].sessionID != sid
  }

  function Identified(s: State, sid: nat, fn: User -> User): State {
    match Held(s, sid)
    case None => s
    case Some(p) =>
      var u := s.records[p];
      var candidate := fn(u);
      if Collides(s, sid, candidate.name) then s
      else s.(records := s.records[p := Revised(u, candidate)],
              byName := if u.name == candidate.name then s.byName else (s.byName - {u.name})[candidate.name := p])
  }

  predicate Current(s: State, ref: SessionRef) {
    Held(s, ref.sessionID).Some? && s.records[Held(s, ref.sessionID).value].generation == ref.generation
  }

  function Next(s: State, step: Step): State {
    match step
    case Add(user) => Added(s, user).0
    case Remove(sid) => Removed(s, sid)
    case RemoveIfGeneration(ref) => if Current(s, ref) then Removed(s, ref.sessionID) else s
    case UpdateUser(sid, fn) => Updated(s, sid, fn)
    case UpdateIdentity(sid, fn) => Identified(s, sid, fn)
    case UpdateIdentityRef(ref, fn) => if Current(s, ref) then Identified(s, ref.sessionID, fn) else s
  }

  // ----- invariants -----

  /** The two indexes describe the same users, each under its own name and number. */
  ghost predicate IndexesAgree(s: State) {
    && (forall sid :: sid in s.bySession ==>
          var p := s.bySession[sid];
          p < |s.records| && s.records[p].sessionID == sid && s.records[p].name in s.byName
            && s.byName[s.records[p].name] == p)
    && (forall name :: name in s.byName ==>
          var p := s.byName[name];
          p < |s.records| && s.records[p].name == name && s.records[p].sessionID in s.bySession
            && s.bySession[s.records[p].sessionID] == p)
  }

  ghost predicate Generations(s: State) {
    && s.generation == |s.records| == |s.issued|
    && (forall p :: 0 <= p < |s.records| ==> s.records[p].generation == p + 1)
    && (forall p :: 0 <= p < |s.issued| ==> s.issued[p] == SessionRef(s.records[p].sessionID, p + 1))
  }

  ghost predicate Inv(s: State) {
    && IndexesAgree(s) && Generations(s)
    && Partition(s.pool) && s.pool.inUse == s.bySession.Keys && s.pool.max == s.maxUsers * 2
  }

  /** The second bound in Alloc, a 32-bit number, lies above the user limit. */
  predicate BoundAboveLimit(maxUsers: int) {
    maxUsers < maxUsers * 4 % 0x1_0000_0000
  }

  /** What callers and the deployment promise: callbacks keep the session number and, except
      in UpdateIdentity, the name; an unlimited server never holds 2^32 - 2 sessions. */
  ghost predicate Disciplined(s: State, step: Step) {
    match step
    case Add(_) => s.maxUsers > 0 || |s.bySession| + 2 < 0x1_0000_0000
    case UpdateUser(_, fn) => forall u :: fn(u).name == u.name && fn(u).sessionID == u.sessionID
    case UpdateIdentity(_, fn) => forall u :: fn(u).sessionID == u.sessionID
    case UpdateIdentityRef(_, fn) => forall u :: fn(u).sessionID == u.sessionID
    case _ => true
  }

  lemma KeysCount<V>(m: map<nat, V>)
    ensures |m.Keys| == |m|
  {}

  lemma StoredAgrees(s: State, user: User, pool: Pool, sid: nat)
    requires IndexesAgree(s) && Generations(s) && user.name !in s.byName && sid !in s.bySession
    ensures IndexesAgree(Stored(s, user, pool, sid)) && Generations(Stored(s, user, pool, sid))
  {}

  lemma NumberFound(s: State, user: User)
    requires Inv(s) && Disciplined(s, Add(user)) && (s.maxUsers > 0 ==> BoundAboveLimit(s.maxUsers))
      && !Refused(s, user)
    ensures var (pool, sid) := Alloc(s.pool);
      && sid.Some? && sid.value !in s.bySession
      && Partition(pool) && pool.inUse == s.bySession.Keys + {sid.value} && pool.max == s.maxUsers * 2
  {
    KeysCount(s.bySession);
    hide Partition, Alloc, IndexesAgree, Generations;
    AllocFromPartition(s.pool);
  }

  /** With maxUsers > 0 and the bound above the limit, and on an unlimited server with room,
      Add fails exactly for a taken name or a full server. */
  lemma AddFailsExactly(s: State, user: User)
    requires Inv(s) && Disciplined(s, Add(user)) && (s.maxUsers > 0 ==> BoundAboveLimit(s.maxUsers))
    ensures Added(s, user).1 <==> !Refused(s, user)
    ensures Inv(Added(s, user).0)
  {
    hide Partition, Alloc, IndexesAgree, Generations;
    if !Refused(s, user) {
      NumberFound(s, user);
      var (pool, sid) := Alloc(s.pool);
      StoredAgrees(s, user, pool, sid.value);
      assert Stored(s, user, pool, sid.value).bySession.Keys == s.bySession.Keys + {sid.value};
    }
  }

  lemma RemoveKeepsInv(s: State, sid: nat)
    requires Inv(s)
    ensures Inv(Removed(s, sid))
  {
    FreeKeepsPartition(s.pool, sid);
    hide Partition, Free;
    assert Removed(s, sid).pool.inUse == Removed(s, sid).bySession.Keys;
  }

  /** UpdateUser does not re-index, so it keeps the indexes in agreement exactly when the
      callback keeps the user's name and number. */
  lemma UpdateUserExact(s: State, sid: nat, fn: User -> User)
    requires Inv(s) && Held(s, sid).Some?
    ensures var u := s.records[s.bySession[sid]];
      Inv(Updated(s, sid, fn)) <==> fn(u).name == u.name && fn(u).sessionID == u.sessionID
  {
    hide Partition;
    var p := s.bySession[sid];
    var t := Updated(s, sid, fn);
    assert t.records[p] == Revised(s.records[p], fn(s.records[p]));
    assert s.byName[s.records[p].name] == p;
  }

  /** UpdateIdentity re-indexes a rename and rejects a collision, so it keeps the indexes in
      agreement exactly when it is rejected or the callback keeps the user's number. */
  lemma UpdateIdentityExact(s: State, sid: nat, fn: User -> User)
    requires Inv(s) && Held(s, sid).Some?
    ensures var u := s.records[s.bySession[sid]];
      Inv(Identified(s, sid, fn)) <==> Collides(s, sid, fn(u).name) || fn(u).sessionID == sid
  {
    hide Partition;
    var p := s.bySession[sid];
    var t := Identified(s, sid, fn);
    var u := s.records[p];
    if !Collides(s, sid, fn(u).name) {
      assert t.records[p] == Revised(u, fn(u));
    }
  }

  lemma HeldUnderNumber(s: State, sid: nat)
    requires IndexesAgree(s) && Held(s, sid).Some?
    ensures s.records[s.bySession[sid]].sessionID == sid
  {}

  lemma StepKeepsInv(s: State, step: Step)
    requires Inv(s) && Disciplined(s, step) && (s.maxUsers > 0 ==> BoundAboveLimit(s.maxUsers))
    ensures Inv(Next(s, step)) && Next(s, step).maxUsers == s.maxUsers
  {
    hide Partition, Alloc, IndexesAgree, Generations;
    match step {
      case Add(user) => AddFailsExactly(s, user);
      case Remove(sid) => RemoveKeepsInv(s, sid);
      case RemoveIfGeneration(ref) => RemoveKeepsInv(s, ref.sessionID);
      case UpdateUser(sid, fn) => if Held(s, sid).Some? { UpdateUserExact(s, sid, fn); }
      case UpdateIdentity(sid, fn) =>
        if Held(s, sid).Some? {
          HeldUnderNumber(s, sid);
          UpdateIdentityExact(s, sid, fn);
        }
      case UpdateIdentityRef(ref, fn) =>
        if Held(s, ref.sessionID).Some? {
          HeldUnderNumber(s, ref.sessionID);
          UpdateIdentityExact(s, ref.sessionID, fn);
        }
    }
  }

  // ----- runs -----

  function Run(maxUsers: int, steps: seq<Step>): State
    decreases |steps|
  {
    if steps == [] then Empty(maxUsers)
    else Next(Run(maxUsers, steps[..|steps| - 1]), steps[|steps| - 1])
  }

  ghost predicate DisciplinedRun(maxUsers: int, steps: seq<Step>)
    decreases |steps|
  {
    steps != [] ==>
      var before := steps[..|steps| - 1];
      DisciplinedRun(maxUsers, before) && Disciplined(Run(maxUsers, before), steps[|steps| - 1])
  }

  /** Over every run: the indexes describe the same users, used and free numbers partition
      1 .. next-1 and are exactly the live sessions. */
  lemma {:induction false} RunKeepsInv(maxUsers: int, steps: seq<Step>)
    requires DisciplinedRun(maxUsers, steps) && (maxUsers > 0 ==> BoundAboveLimit(maxUsers))
    ensures Inv(Run(maxUsers, steps)) && Run(maxUsers, steps).maxUsers == maxUsers
    decreases |steps|
  {
    if steps != [] {
      RunKeepsInv(maxUsers, steps[..|steps| - 1]);
      StepKeepsInv(Run(maxUsers, steps[..|steps| - 1]), steps[|steps| - 1]);
      hide Inv;
    }
  }

  /** Over every run no pair of session number and generation is issued twice. */
  lemma IssuedOnce(maxUsers: int, steps: seq<Step>, i: nat, j: nat)
    requires DisciplinedRun(maxUsers, steps) && (maxUsers > 0 ==> BoundAboveLimit(maxUsers))
    requires i < j < |Run(maxUsers, steps).issued|
    ensures Run(maxUsers, steps).issued[i] != Run(maxUsers, steps).issued[j]
  {
    RunKeepsInv(maxUsers, steps);
  }

  /** No live session is this record any more. */
  predicate Gone(s: State, p: nat) {
    p < |s.records| && forall sid :: sid in s.bySession ==> s.bySession[sid] != p
  }

  lemma GoneStays(s: State, step: Step, p: nat)
    requires Inv(s) && Gone(s, p)
    ensures Gone(Next(s, step), p)
  {
    hide Partition, Alloc, IndexesAgree, Generations, Free;
  }

  lemma {:induction false} GoneForever(maxUsers: int, before: seq<Step>, steps: seq<Step>, p: nat)
    requires before <= steps && DisciplinedRun(maxUsers, steps) && (maxUsers > 0 ==> BoundAboveLimit(maxUsers))
    requires Gone(Run(maxUsers, before), p)
    ensures Gone(Run(maxUsers, steps), p)
    decreases |steps|
  {
    if |before| < |steps| {
      var init := steps[..|steps| - 1];
      assert before <= init;
      GoneForever(maxUsers, before, init, p);
      RunKeepsInv(maxUsers, init);
      GoneStays(Run(maxUsers, init), steps[|steps| - 1], p);
      hide Gone, Inv, Next;
    } else {
      assert before == steps;
    }
  }

  lemma {:induction false} PrefixDisciplined(maxUsers: int, before: seq<Step>, steps: seq<Step>)
    requires before <= steps && DisciplinedRun(maxUsers, steps)
    ensures DisciplinedRun(maxUsers, before)
    decreases |steps|
  {
    if |before| < |steps| {
      assert before <= steps[..|steps| - 1];
      PrefixDisciplined(maxUsers, before, steps[..|steps| - 1]);
    } else {
      assert before == steps;
    }
  }

  lemma NotCurrentGone(s: State, ref: SessionRef)
    requires Inv(s) && ref in s.issued && !Current(s, ref)
    ensures ref.generation >= 1 && Gone(s, ref.generation - 1)
  {
    hide Partition;
    var p :| 0 <= p < |s.issued| && s.issued[p] == ref;
    assert s.records[p].sessionID == ref.sessionID;
  }

  lemma GoneNotCurrent(s: State, ref: SessionRef)
    requires Inv(s) && ref.generation >= 1 && Gone(s, ref.generation - 1)
    ensures !Current(s, ref)
  {
    hide Partition, IndexesAgree;
    if Held(s, ref.sessionID).Some? {
      assert s.records[Held(s, ref.sessionID).value].generation == Held(s, ref.sessionID).value + 1;
    }
  }

  /** Once an issued reference no longer names a live session, operations that carry it
      change nothing, however long afterwards they arrive and whoever holds the number. */
  lemma StaleReferenceHarmless(maxUsers: int, before: seq<Step>, steps: seq<Step>, ref: SessionRef, fn: User -> User)
    requires before <= steps && DisciplinedRun(maxUsers, steps) && (maxUsers > 0 ==> BoundAboveLimit(maxUsers))
    requires ref in Run(maxUsers, before).issued && !Current(Run(maxUsers, before), ref)
    ensures var s := Run(maxUsers, steps);
      !Current(s, ref) && Next(s, RemoveIfGeneration(ref)) == s && Next(s, UpdateIdentityRef(ref, fn)) == s
  {
    hide Inv, Run, Current, Gone, DisciplinedRun;
    PrefixDisciplined(maxUsers, before, steps);
    RunKeepsInv(maxUsers, before);
    RunKeepsInv(maxUsers, steps);
    NotCurrentGone(Run(maxUsers, before), ref);
    GoneForever(maxUsers, before, steps, ref.generation - 1);
    GoneNotCurrent(Run(maxUsers, steps), ref);
  }

  lemma StepRevision(s: State, step: Step, p: nat)
    requires Inv(s) && p < |s.records|
    ensures var t := Next(s, step);
      && p < |t.records| && s.records[p].revision <= t.records[p].revision
      && (s.records[p].revision == t.records[p].revision ==> t.records[p].authority == s.records[p].authority)
  {
    hide Partition, Alloc, IndexesAgree, Generations, Free;
  }

  /** The authorization revision identifies what authorization rests on: over every run, two
      snapshots of one session with the same revision have the same authority. */
  lemma {:induction false} RevisionTellsAuthority(maxUsers: int, before: seq<Step>, steps: seq<Step>, p: nat)
    requires before <= steps && DisciplinedRun(maxUsers, steps) && (maxUsers > 0 ==> BoundAboveLimit(maxUsers))
    requires p < |Run(maxUsers, before).records|
    ensures var s, t := Run(maxUsers, before), Run(maxUsers, steps);
      && p < |t.records| && s.records[p].revision <= t.records[p].revision
      && (s.records[p].revision == t.records[p].revision ==> t.records[p].authority == s.records[p].authority)
    decreases |steps|
  {
    if |before| < |steps| {
      var init := steps[..|steps| - 1];
      assert before <= init;
      RevisionTellsAuthority(maxUsers, before, init, p);
      RunKeepsInv(maxUsers, init);
      StepRevision(Run(maxUsers, init), steps[|steps| - 1], p);
      hide Inv, Next;
    } else {
      assert before == steps;
    }
  }

  // ----- the second bound -----

  /** In every run Add fails only for a taken name or a full server. */
  ghost predicate AdmitsWheneverThereIsRoom(maxUsers: int) {
    forall steps: seq<Step>, user: User :: DisciplinedRun(maxUsers, steps) ==>
      (Added(Run(maxUsers, steps), user).1 <==> !Refused(Run(maxUsers, steps), user))
  }

  function Named(n: nat): User {
    User(0, 0, 0, seq(n, i => 'u'), Authority(0, 0, false, "", false, false, 0, 0, [], []), "")
  }

  function Crowd(n: nat): seq<Step> {
    seq(n, (i: nat) => Add(Named(i)))
  }

  /** While the second bound is not reached, n different names take the numbers 1 .. n. */
  lemma {:induction false} CrowdFills(maxUsers: int, n: nat)
    requires n < maxUsers && n < maxUsers * 4 % 0x1_0000_0000
    ensures var s := Run(maxUsers, Crowd(n));
      && DisciplinedRun(maxUsers, Crowd(n))
      && s.maxUsers == maxUsers && s.pool == Pool(n + 1, [], s.bySession.Keys, maxUsers * 2) && |s.bySession| == n
      && (forall sid :: sid in s.bySession ==> sid <= n)
      && (forall name :: name in s.byName ==> |name| < n)
  {
    if n > 0 {
      CrowdFills(maxUsers, n - 1);
      assert Crowd(n)[..n - 1] == Crowd(n - 1);
      CrowdStep(Run(maxUsers, Crowd(n - 1)), n - 1);
    }
  }

  lemma CrowdAlloc(maxUsers: int, n: nat, keys: set<nat>)
    requires n + 1 < maxUsers && n + 1 < maxUsers * 4 % 0x1_0000_0000 && |keys| == n
    ensures Alloc(Pool(n + 1, [], keys, maxUsers * 2)) == (Pool(n + 2, [], keys + {n + 1}, maxUsers * 2), Some(n + 1))
  {
    assert maxUsers * 2 * 2 == maxUsers * 4;
  }

  lemma CrowdStep(s: State, n: nat)
    requires n + 1 < s.maxUsers && n + 1 < s.maxUsers * 4 % 0x1_0000_0000
    requires s.pool == Pool(n + 1, [], s.bySession.Keys, s.maxUsers * 2) && |s.bySession| == n
    requires forall sid :: sid in s.bySession ==> sid <= n
    requires forall name :: name in s.byName ==> |name| < n
    ensures var t := Next(s, Add(Named(n)));
      && t.maxUsers == s.maxUsers && t.pool == Pool(n + 2, [], t.bySession.Keys, s.maxUsers * 2)
        && |t.bySession| == n + 1
      && (forall sid :: sid in t.bySession ==> sid <= n + 1)
      && (forall name :: name in t.byName ==> |name| < n + 1)
  {
    hide Alloc;
    KeysCount(s.bySession);
    assert |Named(n).name| == n;
    hide Named;
    var pool := Pool(n + 2, [], s.bySession.Keys + {n + 1}, s.maxUsers * 2);
    CrowdAlloc(s.maxUsers, n, s.bySession.Keys);
    var t := Stored(s, Named(n), pool, n + 1);
    assert Next(s, Add(Named(n))) == t;
    hide Next, Added;
    assert t.bySession.Keys == pool.inUse;
    KeysCount(t.bySession);
  }

  /** Exactly when the second bound of Alloc lies above the user limit does Add fail only for
      a taken name or a full server. The bound is computed in 32 bits, so it does for every
      limit up to 2^30 - 1, and for 2^30 even the first Add fails. */
  lemma AdmissionExact(maxUsers: int)
    requires maxUsers > 0
    ensures AdmitsWheneverThereIsRoom(maxUsers) <==> BoundAboveLimit(maxUsers)
  {
    if BoundAboveLimit(maxUsers) {
      forall steps: seq<Step>, user: User | DisciplinedRun(maxUsers, steps)
        ensures Added(Run(maxUsers, steps), user).1 <==> !Refused(Run(maxUsers, steps), user)
      {
        RunKeepsInv(maxUsers, steps);
        AddFailsExactly(Run(maxUsers, steps), user);
      }
    } else {
      var bound := maxUsers * 4 % 0x1_0000_0000;
      var n := if bound == 0 then 0 else bound - 1;
      if n == 0 {
        assert Crowd(0) == [];
      } else {
        CrowdFills(maxUsers, n);
      }
      BoundHit(maxUsers, n);
    }
  }

  lemma BoundHit(maxUsers: int, n: nat)
    requires n < maxUsers && n + 1 >= maxUsers * 4 % 0x1_0000_0000 && DisciplinedRun(maxUsers, Crowd(n))
    requires var s := Run(maxUsers, Crowd(n));
      && s.maxUsers == maxUsers && s.pool == Pool(n + 1, [], s.bySession.Keys, maxUsers * 2) && |s.bySession| == n
      && (forall name :: name in s.byName ==> |name| < n)
    ensures !AdmitsWheneverThereIsRoom(maxUsers)
  {
    var s := Run(maxUsers, Crowd(n));
    hide Run, DisciplinedRun;
    KeysCount(s.bySession);
    assert |Named(n).name| == n;
    assert !Refused(s, Named(n)) && !Added(s, Named(n)).1;
  }

  lemma LimitsBelow2To30(maxUsers: int)
    requires 0 < maxUsers < 0x4000_0000
    ensures BoundAboveLimit(maxUsers) && !BoundAboveLimit(0x4000_0000)
  {}

  // ----- the objects -----

  class SessionPool {
    var next: nat
    var free: seq<nat>
    var inUse: set<nat>
    const max: int

    function Value(): Pool
      reads this
    {
      Pool(next, free, inUse, max)
    }

    constructor (max: int)
      ensures Value() == Pool(1, [], {}, max)
    {
      this.next, this.free, this.inUse, this.max := 1, [], {}, max;
    }

    method Take() returns (sid: nat, ok: bool)
      modifies this
      ensures (Value(), if ok then Some(sid) else None) == Alloc(old(Value()))
      ensures old(Partition(Value())) && ok ==> sid !in old(inUse)
    {
      if |inUse| >= max && max > 0 { return 0, false; }
      if |free| > 0 {
        sid := free[|free| - 1];
        free := free[..|free| - 1];
        inUse := inUse + {sid};
        return sid, true;
      }
      sid := next;
      next := (next + 1) % 0x1_0000_0000;
      if max > 0 && sid >= max * 2 % 0x1_0000_0000 { return 0, false; }
      inUse := inUse + {sid};
      return sid, true;
    }

    method Return(sid: nat)
      modifies this
      ensures Value() == Free(old(Value()), sid)
    {
      if sid !in inUse { return; }
      inUse := inUse - {sid};
      free := free + [sid];
    }
  }

  class Manager {
    var records: seq<User>
    var bySession: map<nat, nat>
    var byName: map<string, nat>
    const pool: SessionPool
    const maxUsers: int
    var generation: nat
    ghost var issued: seq<SessionRef>

    ghost function Value(): State
      reads this, pool
    {
      State(records, bySession, byName, pool.Value(), maxUsers, generation, issued)
    }

    /** Both indexes hold pointers to records. */
    ghost predicate Valid()
      reads this
    {
      && (forall sid :: sid in bySession ==> bySession[sid] < |records|)
      && (forall name :: name in byName ==> byName[name] < |records|)
    }

    constructor (maxUsers: int)
      ensures Valid() && Value() == Empty(maxUsers) && fresh(pool)
    {
      records, bySession, byName, generation, issued := [], map[], map[], 0, [];
      this.maxUsers := maxUsers;
      pool := new SessionPool(maxUsers * 2);
    }

    method AddUser(user: User) returns (stored: User, ok: bool)
      requires Valid()
      modifies this, pool
      ensures Valid() && (Value(), ok) == Added(old(Value()), user)
      ensures ok ==>
        stored == records[|old(records)|] && bySession[stored.sessionID] == byName[user.name] == |old(records)|
    {
      stored := user;
      if user.name in byName { return stored, false; }
      if |bySession| >= maxUsers && maxUsers > 0 { return stored, false; }
      var sid;
      sid, ok := pool.Take();
      if !ok { return; }
      generation := generation + 1;
      stored := user.(sessionID := sid, generation := generation, revision := 1);
      bySession := bySession[sid := |records|];
      byName := byName[stored.name := |records|];
      records := records + [stored];
      issued := issued + [SessionRef(sid, generation)];
    }

    method RemoveUser(ref: SessionRef, conditional: bool) returns (removed: Option<User>)
      requires Valid()
      modifies this, pool
      ensures Valid() && Value() == Next(old(Value()), if conditional then RemoveIfGeneration(ref)
        else Remove(ref.sessionID))
      ensures removed.Some? <==> ref.sessionID in old(bySession) && (conditional ==> old(Current(Value(), ref)))
      ensures removed.Some? ==> removed.value == old(records[bySession[ref.sessionID]])
    {
      if ref.sessionID !in bySession
        || (conditional && records[bySession[ref.sessionID]].generation != ref.generation) {
        return None;
      }
      var u := records[bySession[ref.sessionID]];
      bySession := bySession - {ref.sessionID};
      byName := byName - {u.name};
      pool.Return(ref.sessionID);
      return Some(u);
    }

    method Update(sid: nat, fn: User -> User) returns (updated: Option<User>)
      requires Valid()
      modifies this
      ensures Valid() && Value() == Next(old(Value()), UpdateUser(sid, fn))
      ensures updated == if sid in bySession then Some(records[bySession[sid]]) else None
    {
      if sid !in bySession { return None; }
      var p := bySession[sid];
      var before := records[p];
      var u := fn(before);
      u := u.(generation := before.generation, revision := before.revision);
      if before.authority != u.authority {
        u := u.(revision := u.revision + 1);
      }
      records := records[p := u];
      return Some(u);
    }

    method UpdateIdentityOf(ref: SessionRef, checkGeneration: bool, fn: User -> User) returns (updated: Option<User>)
      requires Valid()
      modifies this
      ensures Valid()
      ensures Value() == Next(old(Value()), if checkGeneration then UpdateIdentityRef(ref, fn)
        else UpdateIdentity(ref.sessionID, fn))
      ensures updated.Some? <==> ref.sessionID in bySession && (checkGeneration ==> old(Current(Value(), ref)))
                                 && !old(Collides(Value(), ref.sessionID, fn(records[bySession[ref.sessionID]]).name))
      ensures updated.Some? ==> updated.value == records[bySession[ref.sessionID]]
    {
      if ref.sessionID !in bySession
        || (checkGeneration && records[bySession[ref.sessionID]].generation != ref.generation) {
        return None;
      }
      var p := bySession[ref.sessionID];
      var u := records[p];
      var candidate := fn(u);
      if candidate.name in byName && records[byName[candidate.name]].sessionID != ref.sessionID { return None; }
      candidate := candidate.(generation := u.generation, revision := u.revision);
      if u.authority != candidate.authority {
        candidate := candidate.(revision := candidate.revision + 1);
      }
      records := records[p := candidate];
      if u.name != candidate.name {
        byName := byName - {u.name};
        byName := byName[candidate.name := p];
      }
      return Some(candidate);
    }
  }
}
