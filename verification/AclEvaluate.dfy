/** The ACL fold (internal/acl/evaluator.go): a walk from the root to the target channel over
    ordered rows, and the declarative form it computes, in which the last row that has a say
    about a permission decides it. */
module AclEvaluate {
  import opened Results

  /** A 32-bit permission mask, as the set of its bit numbers: |, & and &^ are union,
      intersection and difference. */
  type Mask = set<nat>

  // Bit numbers (pkg/mumble/permission.go).
  const WRITE := 0
  const TRAVERSE := 1
  const ENTER := 2
  const SPEAK := 3
  const MUTE_DEAFEN := 4
  const MOVE := 5
  const MAKE_CHANNEL := 6
  const LINK_CHANNEL := 7
  const WHISPER := 8
  const TEXT_MESSAGE := 9
  const MAKE_TEMP_CHANNEL := 10
  const LISTEN := 11
  const KICK := 16
  const BAN := 17
  const REGISTER := 18
  const SELF_REGISTER := 19
  const RESET_USER := 20
  const ROOT_ONLY: Mask := {KICK, BAN, REGISTER, SELF_REGISTER, RESET_USER}
  const ALL: Mask :=
    {WRITE, TRAVERSE, ENTER, SPEAK, MUTE_DEAFEN, MOVE, MAKE_CHANNEL, LINK_CHANNEL, WHISPER, TEXT_MESSAGE,
     MAKE_TEMP_CHANNEL, LISTEN} + ROOT_ONLY
  const DEFAULT: Mask := {TRAVERSE, ENTER, SPEAK, WHISPER, TEXT_MESSAGE, LISTEN}
  const IMPLIED_BY_WRITE: Mask :=
    {TRAVERSE, ENTER, MUTE_DEAFEN, MOVE, MAKE_CHANNEL, LINK_CHANNEL, TEXT_MESSAGE, MAKE_TEMP_CHANNEL, LISTEN}

  datatype Error = NoPath | ChannelDeleted | Storage | Selector

  /** Whom a row is about: one account, or a group by name with its modifiers. */
  datatype Selector =
    | Account(id: int, invert: bool)
    | Group(name: string, invert: bool, here: bool, token: bool, cert: bool)

  datatype Row = Row(grant: Mask, deny: Mask, applyHere: bool, applySubs: bool, selector: Selector)

  /** One evaluation: the ancestor chain of the target (target first), the inherit flags of
      the channels, the stored rows in priority order, and the outcome of matching a row's
      selector, at the channel of the row, against the subject. `admin` is the answer of the API role lookup. */
  datatype Query = Query(
    chain: seq<nat>, target: nat, root: nat, admin: Result<bool, Error>,
    inherit: map<nat, bool>, rows: nat -> Result<seq<Row>, Error>, matches: (nat, Row) -> Result<bool, Error>)

  // ----- the walk -----

  datatype Walk = Walk(granted: Mask, traverse: bool, write: bool)

  function Def(q: Query): Mask {
    if q.admin == Ok(true) then DEFAULT + {WRITE} else DEFAULT
  }

  /** A row of channel c applies to the target directly or through inheritance. */
  predicate Applies(q: Query, c: nat, row: Row) {
    (c == q.target && row.applyHere) || (c != q.target && row.applySubs)
  }

  predicate ConcernsTraverse(q: Query, c: nat, row: Row) {
    row.applyHere || (c != q.target && row.applySubs)
  }

  function Flag(x: bool, row: Row, m: nat): bool {
    if m in row.deny then false else if m in row.grant then true else x
  }

  function Grantable(q: Query, c: nat, row: Row): Mask {
    if c == q.root && c == q.target && row.applyHere then (ALL - ROOT_ONLY) + ROOT_ONLY else ALL - ROOT_ONLY
  }

  /** One matching row. */
  function Visit(q: Query, c: nat, row: Row, w: Walk): Walk {
    Walk(if Applies(q, c, row) then w.granted + row.grant * Grantable(q, c, row) - row.deny else w.granted,
         if ConcernsTraverse(q, c, row) then Flag(w.traverse, row, TRAVERSE) else w.traverse,
         if Applies(q, c, row) then Flag(w.write, row, WRITE) else w.write)
  }

  function VisitRows(q: Query, c: nat, rows: seq<Row>, w: Walk): Result<Walk, Error>
    decreases |rows|
  {
    if rows == [] then Ok(w)
    else
      match VisitRows(q, c, rows[..|rows| - 1], w)
      case Err(e) => Err(e)
      case Ok(v) =>
        var row := rows[|rows| - 1];
        match q.matches(c, row)
        case Err(e) => Err(e)
        case Ok(hit) => Ok(if hit then Visit(q, c, row, v) else v)
  }

  function VisitChannel(q: Query, c: nat, w: Walk): Result<Walk, Error> {
    if c !in q.inherit then Err(ChannelDeleted)
    else
      match q.rows(c)
      case Err(e) => Err(e)
      case Ok(rows) => VisitRows(q, c, rows, if q.inherit[c] then w else w.(granted := Def(q)))
  }

  datatype Reached = Blocked | Open(walk: Walk)

  /** The walk along a path given root first. */
  function Scan(q: Query, path: seq<nat>): Result<Reached, Error>
    decreases |path|
  {
    if path == [] then Ok(Open(Walk(Def(q), true, WRITE in Def(q))))
    else
      match Scan(q, path[..|path| - 1])
      case Err(e) => Err(e)
      case Ok(Blocked) => Ok(Blocked)
      case Ok(Open(w)) =>
        match VisitChannel(q, path[|path| - 1], w)
        case Err(e) => Err(e)
        case Ok(v) => if !v.traverse && !v.write then Ok(Blocked) else Ok(Open(v))
  }

  function Expand(q: Query, granted: Mask): Mask {
    (if WRITE in granted then granted + IMPLIED_BY_WRITE + (if q.target == q.root then ROOT_ONLY else {})
      else granted) * ALL
  }

  function RootFirst(chain: seq<nat>): seq<nat> {
    seq(|chain|, i requires 0 <= i < |chain| => chain[|chain| - 1 - i])
  }

  function Permissions(q: Query): Result<Mask, Error> {
    if q.chain == [] || q.chain[|q.chain| - 1] != q.root then Err(NoPath)
    else if q.admin.Err? then Err(q.admin.error)
    else
      match Scan(q, RootFirst(q.chain))
      case Err(e) => Err(e)
      case Ok(Blocked) => Ok({})
      case Ok(Open(w)) => Ok(Expand(q, w.granted))
  }

  // ----- the declarative form -----

  /** The last vote counts; without one the default does. */
  function Last(votes: seq<Option<bool>>, default: bool): bool
    decreases |votes|
  {
    if votes == [] then default
    else if votes[|votes| - 1].Some? then votes[|votes| - 1].value
    else Last(votes[..|votes| - 1], default)
  }

  /** Vote i is the last one cast. */
  ghost predicate Decisive(votes: seq<Option<bool>>, i: nat) {
    i < |votes| && votes[i].Some? && forall j :: i < j < |votes| ==> votes[j].None?
  }

  lemma {:induction false} LastVoteWins(votes: seq<Option<bool>>, default: bool)
    ensures (forall i :: 0 <= i < |votes| ==> votes[i].None?) ==> Last(votes, default) == default
    ensures forall i: nat :: Decisive(votes, i) ==> Last(votes, default) == votes[i].value
    decreases |votes|
  {
    if votes != [] {
      var n := |votes| - 1;
      var init := votes[..n];
      LastVoteWins(init, default);
      forall i: nat | Decisive(votes, i) ensures Last(votes, default) == votes[i].value {
        if votes[n].None? {
          assert i < n && Decisive(init, i);
        } else {
          assert !(i < n);
        }
      }
    }
  }

  /** What a matching row says about a permission it may grant: a denial beats a grant. */
  function Vote(row: Row, grantable: Mask, m: nat): Option<bool> {
    if m in row.deny then Some(false) else if m in row.grant && m in grantable then Some(true) else None
  }

  function PermissionVote(q: Query, c: nat, row: Row, m: nat): Option<bool> {
    if Applies(q, c, row) then Vote(row, Grantable(q, c, row), m) else None
  }

  function TraverseVote(q: Query, c: nat, row: Row): Option<bool> {
    if ConcernsTraverse(q, c, row) then Vote(row, ALL, TRAVERSE) else None
  }

  function WriteVote(q: Query, c: nat, row: Row): Option<bool> {
    if Applies(q, c, row) then Vote(row, ALL, WRITE) else None
  }

  /** The rows can be read and every selector can be decided. */
  predicate RowsReadable(q: Query, c: nat, rows: seq<Row>) {
    forall i :: 0 <= i < |rows| ==> q.matches(c, rows[i]).Ok?
  }

  predicate Readable(q: Query, c: nat) {
    c in q.inherit && q.rows(c).Ok? && RowsReadable(q, c, q.rows(c).value)
  }

  predicate AllReadable(q: Query, path: seq<nat>) {
    forall i :: 0 <= i < |path| ==> Readable(q, path[i])
  }

  /** The rows whose selector matches the subject, in order. */
  function Matching(q: Query, c: nat, rows: seq<Row>): seq<Row>
    requires RowsReadable(q, c, rows)
    decreases |rows|
  {
    if rows == [] then []
    else Matching(q, c, rows[..|rows| - 1]) + if q.matches(c, rows[|rows| - 1]).value then [rows[|rows| - 1]] else []
  }

  /** Everything that has a say about m on the path: a channel that does not inherit puts
      the default back, and then come its matching rows. */
  function PermissionVotes(q: Query, path: seq<nat>, m: nat): seq<Option<bool>>
    requires AllReadable(q, path)
    decreases |path|
  {
    if path == [] then []
    else
      var c := path[|path| - 1];
      assert Readable(q, c);
      PermissionVotes(q, path[..|path| - 1], m)
      + (if q.inherit[c] then [] else [Some(m in Def(q))])
      + Map(Matching(q, c, q.rows(c).value), row => PermissionVote(q, c, row, m))
  }

  function TraverseVotes(q: Query, path: seq<nat>): seq<Option<bool>>
    requires AllReadable(q, path)
    decreases |path|
  {
    if path == [] then []
    else
      var c := path[|path| - 1];
      assert Readable(q, c);
      TraverseVotes(q, path[..|path| - 1]) + Map(Matching(q, c, q.rows(c).value), row => TraverseVote(q, c, row))
  }

  function WriteVotes(q: Query, path: seq<nat>): seq<Option<bool>>
    requires AllReadable(q, path)
    decreases |path|
  {
    if path == [] then []
    else
      var c := path[|path| - 1];
      assert Readable(q, c);
      WriteVotes(q, path[..|path| - 1]) + Map(Matching(q, c, q.rows(c).value), row => WriteVote(q, c, row))
  }

  function Map(rows: seq<Row>, f: Row -> Option<bool>): (r: seq<Option<bool>>)
    ensures |r| == |rows| && forall i :: 0 <= i < |rows| ==> r[i] == f(rows[i])
  {
    seq(|rows|, i requires 0 <= i < |rows| => f(rows[i]))
  }

  predicate Decided(q: Query, path: seq<nat>, m: nat)
    requires AllReadable(q, path)
  {
    Last(PermissionVotes(q, path, m), m in Def(q))
  }

  predicate BlockedAt(q: Query, path: seq<nat>)
    requires AllReadable(q, path)
  {
    !Last(TraverseVotes(q, path), true) && !Last(WriteVotes(q, path), WRITE in Def(q))
  }

  // ----- the walk computes the declarative form -----

  lemma LastSnoc(votes: seq<Option<bool>>, v: Option<bool>, default: bool)
    ensures Last(votes + [v], default) == if v.Some? then v.value else Last(votes, default)
  {
    assert (votes + [v])[..|votes|] == votes;
  }

  /** The walk w has collected exactly what the votes on the three questions say. */
  ghost predicate Tallies(w: Walk, q: Query, m: nat, p: seq<Option<bool>>, t: seq<Option<bool>>,
      wr: seq<Option<bool>>) {
    && (m in w.granted) == Last(p, m in Def(q))
    && w.traverse == Last(t, true)
    && w.write == Last(wr, WRITE in Def(q))
  }

  lemma VisitTallies(q: Query, c: nat, row: Row, w: Walk, m: nat, p: seq<Option<bool>>, t: seq<Option<bool>>,
      wr: seq<Option<bool>>)
    requires Tallies(w, q, m, p, t, wr)
    ensures Tallies(Visit(q, c, row, w), q, m, p + [PermissionVote(q, c, row, m)], t + [TraverseVote(q, c, row)],
      wr + [WriteVote(q, c, row)])
  {
    hide Last, Grantable, Def;
    LastSnoc(p, PermissionVote(q, c, row, m), m in Def(q));
    LastSnoc(t, TraverseVote(q, c, row), true);
    LastSnoc(wr, WriteVote(q, c, row), WRITE in Def(q));
  }

  lemma {:induction false} RowsTally(
    q: Query, c: nat, rows: seq<Row>, w: Walk, m: nat, p: seq<Option<bool>>, t: seq<Option<bool>>,
      wr: seq<Option<bool>>)
    requires RowsReadable(q, c, rows) && Tallies(w, q, m, p, t, wr)
    ensures VisitRows(q, c, rows, w).Ok?
    ensures Tallies(VisitRows(q, c, rows, w).value, q, m,
                    p + Map(Matching(q, c, rows), row => PermissionVote(q, c, row, m)),
                    t + Map(Matching(q, c, rows), row => TraverseVote(q, c, row)),
                    wr + Map(Matching(q, c, rows), row => WriteVote(q, c, row)))
    decreases |rows|
  {
    hide Tallies, Visit, PermissionVote, TraverseVote, WriteVote;
    var pv, tv, wv := row => PermissionVote(q, c, row, m), row => TraverseVote(q, c, row), row => WriteVote(q, c, row);
    if rows == [] {
      assert p + Map([], pv) == p && t + Map([], tv) == t && wr + Map([], wv) == wr;
    } else {
      var init, row := rows[..|rows| - 1], rows[|rows| - 1];
      RowsTally(q, c, init, w, m, p, t, wr);
      var before := Matching(q, c, init);
      if q.matches(c, row).value {
        VisitTallies(q, c, row, VisitRows(q, c, init, w).value, m, p + Map(before, pv), t + Map(before, tv),
          wr + Map(before, wv));
        assert p + Map(before + [row], pv) == p + Map(before, pv) + [pv(row)];
        assert t + Map(before + [row], tv) == t + Map(before, tv) + [tv(row)];
        assert wr + Map(before + [row], wv) == wr + Map(before, wv) + [wv(row)];
      } else {
        assert before + [] == before;
      }
    }
  }

  /** A channel adds its votes; a non-inheriting one first puts the default back. */
  lemma ChannelTallies(q: Query, path: seq<nat>, w: Walk, m: nat)
    requires path != [] && AllReadable(q, path)
    requires var init := path[..|path| - 1];
      Tallies(w, q, m, PermissionVotes(q, init, m), TraverseVotes(q, init), WriteVotes(q, init))
    ensures var c := path[|path| - 1];
      && VisitChannel(q, c, w).Ok?
      && Tallies(VisitChannel(q, c, w).value, q, m, PermissionVotes(q, path, m), TraverseVotes(q, path),
        WriteVotes(q, path))
  {
    hide VisitRows, Matching, Map, PermissionVote, TraverseVote, WriteVote, RowsReadable;
    var init, c := path[..|path| - 1], path[|path| - 1];
    assert Readable(q, c);
    var p, t, wr := PermissionVotes(q, init, m), TraverseVotes(q, init), WriteVotes(q, init);
    if q.inherit[c] {
      assert p + [] == p;
      RowsTally(q, c, q.rows(c).value, w, m, p, t, wr);
    } else {
      LastSnoc(p, Some(m in Def(q)), m in Def(q));
      RowsTally(q, c, q.rows(c).value, w.(granted := Def(q)), m, p + [Some(m in Def(q))], t, wr);
    }
  }

  lemma RowsReadableStep(q: Query, c: nat, rows: seq<Row>)
    requires rows != []
    ensures RowsReadable(q, c, rows) <==> RowsReadable(q, c, rows[..|rows| - 1]) && q.matches(c, rows[|rows| - 1]).Ok?
  {
    var init := rows[..|rows| - 1];
    assert forall i :: 0 <= i < |init| ==> init[i] == rows[i];
  }

  lemma {:induction false} UnreadableRowsFail(q: Query, c: nat, rows: seq<Row>, w: Walk)
    requires !RowsReadable(q, c, rows)
    ensures VisitRows(q, c, rows, w).Err?
    decreases |rows|
  {
    var init := rows[..|rows| - 1];
    RowsReadableStep(q, c, rows);
    hide RowsReadable;
    if !RowsReadable(q, c, init) {
      UnreadableRowsFail(q, c, init, w);
    }
  }

  ghost predicate BlockedPrefix(q: Query, path: seq<nat>) {
    AllReadable(q, path) && BlockedAt(q, path)
  }

  ghost predicate BlockedOnTheWay(q: Query, path: seq<nat>) {
    exists k :: 0 <= k <= |path| && BlockedPrefix(q, path[..k])
  }

  lemma BlockedOnTheWayStep(q: Query, path: seq<nat>)
    requires path != []
    ensures BlockedOnTheWay(q, path) <==> BlockedOnTheWay(q, path[..|path| - 1]) || BlockedPrefix(q, path)
  {
    hide BlockedPrefix;
    var init := path[..|path| - 1];
    assert path[..|path|] == path;
    if k :| 0 <= k <= |path| && BlockedPrefix(q, path[..k]) {
      if k < |path| { assert init[..k] == path[..k]; }
    }
    if k :| 0 <= k <= |init| && BlockedPrefix(q, init[..k]) {
      assert init[..k] == path[..k];
    }
  }

  lemma ReadableStep(q: Query, path: seq<nat>)
    requires path != []
    ensures AllReadable(q, path) <==> AllReadable(q, path[..|path| - 1]) && Readable(q, path[|path| - 1])
  {
    hide Readable;
    var init := path[..|path| - 1];
    assert forall i :: 0 <= i < |init| ==> init[i] == path[i];
  }

  /** What the walk finds, by the votes alone. */
  ghost predicate Found(q: Query, path: seq<nat>) {
    if BlockedOnTheWay(q, path) then Scan(q, path) == Ok(Blocked)
    else if AllReadable(q, path) then
      && Scan(q, path).Ok? && Scan(q, path).value.Open?
      && forall m :: Tallies(Scan(q, path).value.walk, q, m, PermissionVotes(q, path, m), TraverseVotes(q, path),
        WriteVotes(q, path))
    else Scan(q, path).Err?
  }

  lemma NothingBlockedYet(q: Query)
    ensures Found(q, [])
  {
    var none: seq<nat> := [];
    forall k | 0 <= k <= |none| ensures !BlockedPrefix(q, none[..k]) {
      assert none[..k] == none;
    }
  }

  lemma {:induction false} ScanFinds(q: Query, path: seq<nat>)
    ensures Found(q, path)
    decreases |path|
  {
    if path == [] {
      NothingBlockedYet(q);
    } else {
      ScanFinds(q, path[..|path| - 1]);
      ScanFindsStep(q, path);
    }
  }

  lemma ScanFindsStep(q: Query, path: seq<nat>)
    requires path != [] && Found(q, path[..|path| - 1])
    ensures Found(q, path)
  {
    var init, c := path[..|path| - 1], path[|path| - 1];
    BlockedOnTheWayStep(q, path);
    ReadableStep(q, path);
    hide BlockedOnTheWay, VisitRows, RowsReadable;
    if !BlockedOnTheWay(q, init) && AllReadable(q, init) {
      var w := Scan(q, init).value.walk;
      if Readable(q, c) {
        ChannelTallies(q, path, w, 0);
        forall m ensures Tallies(VisitChannel(q, c, w).value, q, m, PermissionVotes(q, path, m),
          TraverseVotes(q, path), WriteVotes(q, path)) {
          ChannelTallies(q, path, w, m);
        }
        hide VisitChannel, PermissionVotes, TraverseVotes, WriteVotes, Last, Readable, AllReadable;
      } else if c in q.inherit && q.rows(c).Ok? {
        UnreadableRowsFail(q, c, q.rows(c).value, if q.inherit[c] then w else w.(granted := Def(q)));
      }
    }
  }

  predicate Rooted(q: Query) {
    q.chain != [] && q.chain[|q.chain| - 1] == q.root
  }

  /** The answer without the walk: an error for a path that does not start at the root, a
      failed role lookup, or an unreadable row that no earlier channel blocks; nothing if the
      channels up to some point leave both Traverse and Write refused; and otherwise each
      permission as the last vote decides it, with what Write implies. */
  lemma EvaluatesDeclaratively(q: Query)
    ensures !Rooted(q) || q.admin.Err? ==> Permissions(q).Err?
    ensures Rooted(q) && q.admin.Ok? ==>
      var path := RootFirst(q.chain);
      if BlockedOnTheWay(q, path) then Permissions(q) == Ok({})
      else if !AllReadable(q, path) then Permissions(q).Err?
      else
        && Permissions(q).Ok?
        && forall m :: m in Permissions(q).value <==>
             m in ALL && (Decided(q, path, m)
                          || (Decided(q, path, WRITE)
                            && (m in IMPLIED_BY_WRITE || (q.target == q.root && m in ROOT_ONLY))))
  {
    if Rooted(q) && q.admin.Ok? {
      var path := RootFirst(q.chain);
      ScanFinds(q, path);
      hide Scan, PermissionVotes, Last, BlockedOnTheWay, AllReadable, Def, TraverseVotes, WriteVotes;
      if !BlockedOnTheWay(q, path) && AllReadable(q, path) {
        var w := Scan(q, path).value.walk;
        forall m ensures m in w.granted <==> Decided(q, path, m) {
          assert Tallies(w, q, m, PermissionVotes(q, path, m), TraverseVotes(q, path), WriteVotes(q, path));
        }
      }
    }
  }

  /** Write never brings Speak or Whisper with it. */
  lemma WriteAddsNoVoice(q: Query, m: nat)
    requires m == SPEAK || m == WHISPER
    requires Rooted(q) && q.admin.Ok? && AllReadable(q, RootFirst(q.chain)) && !BlockedOnTheWay(q, RootFirst(q.chain))
    ensures Permissions(q).Ok? && (m in Permissions(q).value <==> Decided(q, RootFirst(q.chain), m))
  {
    EvaluatesDeclaratively(q);
    hide Permissions, Decided, AllReadable, BlockedOnTheWay;
    assert m in ALL && m !in IMPLIED_BY_WRITE && m !in ROOT_ONLY;
  }

  lemma {:induction false} RowsGrantNoRootBits(q: Query, c: nat, rows: seq<Row>, w: Walk)
    requires q.target != q.root && w.granted !! ROOT_ONLY && VisitRows(q, c, rows, w).Ok?
    ensures VisitRows(q, c, rows, w).value.granted !! ROOT_ONLY
    decreases |rows|
  {
    if rows != [] {
      RowsGrantNoRootBits(q, c, rows[..|rows| - 1], w);
    }
  }

  lemma {:induction false} WalkGrantsNoRootBits(q: Query, path: seq<nat>)
    requires q.target != q.root && Scan(q, path).Ok? && Scan(q, path).value.Open?
    ensures Scan(q, path).value.walk.granted !! ROOT_ONLY
    decreases |path|
  {
    hide VisitRows;
    if path != [] {
      var init, c := path[..|path| - 1], path[|path| - 1];
      WalkGrantsNoRootBits(q, init);
      var w := Scan(q, init).value.walk;
      assert Def(q) !! ROOT_ONLY;
      RowsGrantNoRootBits(q, c, q.rows(c).value, if q.inherit[c] then w else w.(granted := Def(q)));
    }
  }

  /** A target other than the root never gets a root-only permission. */
  lemma NoRootBitsBelowRoot(q: Query)
    requires q.target != q.root && Permissions(q).Ok?
    ensures Permissions(q).value !! ROOT_ONLY
  {
    hide Scan;
    if Scan(q, RootFirst(q.chain)).value.Open? {
      WalkGrantsNoRootBits(q, RootFirst(q.chain));
    }
  }

  // ----- the loops -----

  method Evaluate(q: Query) returns (r: Result<Mask, Error>)
    ensures r == Permissions(q)
  {
    hide VisitRows, Expand;
    if |q.chain| == 0 || q.chain[|q.chain| - 1] != q.root { return Err(NoPath); }
    var def: Mask := DEFAULT;
    if q.admin.Err? { return Err(q.admin.error); }
    if q.admin.value { def := def + {WRITE}; }
    var w := Walk(def, true, WRITE in def);
    ghost var path := RootFirst(q.chain);
    var i := |q.chain|;
    while i > 0
      invariant 0 <= i <= |q.chain| && def == Def(q)
      invariant Scan(q, path[..|path| - i]) == Ok(Open(w))
    {
      i := i - 1;
      var c := q.chain[i];
      ghost var n := |path| - i;
      assert path[..n][..n - 1] == path[..n - 1] && path[..n][n - 1] == c;
      FailureStays(q, path, n);
      if c !in q.inherit { return Err(ChannelDeleted); }
      var start := if q.inherit[c] then w else w.(granted := def);
      var rows := q.rows(c);
      if rows.Err? { return Err(rows.error); }
      var visited := VisitAll(q, c, rows.value, start);
      if visited.Err? { return Err(visited.error); }
      w := visited.value;
      if !w.traverse && !w.write { return Ok({}); }
    }
    assert path[..|path|] == path;
    hide Scan;
    var widened := Widen(q, w.granted);
    return Ok(widened);
  }

  method Widen(q: Query, start: Mask) returns (granted: Mask)
    ensures granted == Expand(q, start)
  {
    granted := start;
    if WRITE in granted {
      granted := granted + IMPLIED_BY_WRITE;
      if q.target == q.root { granted := granted + ROOT_ONLY; }
    }
    granted := granted * ALL;
  }

  /** A walk that stopped stays stopped. */
  lemma {:induction false} FailureStays(q: Query, path: seq<nat>, n: nat)
    requires n <= |path|
    ensures Scan(q, path[..n]).Err? || Scan(q, path[..n]) == Ok(Blocked) ==> Scan(q, path) == Scan(q, path[..n])
    decreases |path|
  {
    hide VisitChannel;
    if n == |path| {
      assert path[..n] == path;
    } else {
      FailureStays(q, path[..|path| - 1], n);
      assert path[..|path| - 1][..n] == path[..n];
    }
  }

  method VisitOne(q: Query, c: nat, row: Row, start: Walk) returns (w: Walk)
    ensures w == Visit(q, c, row, start)
  {
    var granted, traverse, write := start.granted, start.traverse, start.write;
    var self := c == q.target && row.applyHere;
    var inherited := c != q.target && row.applySubs;
    var apply := self || inherited;
    if inherited || row.applyHere {
      if TRAVERSE in row.grant { traverse := true; }
      if TRAVERSE in row.deny { traverse := false; }
    }
    if apply {
      if WRITE in row.grant { write := true; }
      if WRITE in row.deny { write := false; }
    }
    if c == q.root && self { granted := granted + row.grant * ROOT_ONLY; }
    if apply {
      granted := granted + row.grant * (ALL - ROOT_ONLY);
      granted := granted - row.deny;
    }
    assert granted == Visit(q, c, row, start).granted;
    return Walk(granted, traverse, write);
  }

  method VisitAll(q: Query, c: nat, rows: seq<Row>, start: Walk) returns (r: Result<Walk, Error>)
    ensures r == VisitRows(q, c, rows, start)
  {
    hide Visit;
    var w := start;
    var i := 0;
    while i < |rows|
      invariant 0 <= i <= |rows|
      invariant VisitRows(q, c, rows[..i], start) == Ok(w)
    {
      var row := rows[i];
      assert rows[..i + 1][..i] == rows[..i];
      RowFailureStays(q, c, rows, start, i + 1);
      i := i + 1;
      var hit := q.matches(c, row);
      if hit.Err? { return Err(hit.error); }
      if hit.value { w := VisitOne(q, c, row, w); }
    }
    assert rows[..i] == rows;
    return Ok(w);
  }

  lemma {:induction false} RowFailureStays(q: Query, c: nat, rows: seq<Row>, w: Walk, n: nat)
    requires n <= |rows|
    ensures VisitRows(q, c, rows[..n], w).Err? ==> VisitRows(q, c, rows, w) == VisitRows(q, c, rows[..n], w)
    decreases |rows|
  {
    hide Visit;
    if n == |rows| {
      assert rows[..n] == rows;
    } else {
      RowFailureStays(q, c, rows[..|rows| - 1], w, n);
      assert rows[..|rows| - 1][..n] == rows[..n];
    }
  }
}
