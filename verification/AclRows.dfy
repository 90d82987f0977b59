/** What a single ACL row does to the whole evaluation (internal/acl/evaluator.go and
    group.go): a row that does not count for the subject can be taken away, and the last row
    on the path that mentions a permission decides it for exactly those it counts for. */
module AclRows {
  import opened Results
  import opened AclSelectors
  import opened AclEvaluate

  // ----- a row that does not count -----

  /** The same evaluation over other rows. */
  ghost predicate Alike(p: Query, q: Query) {
    && p.chain == q.chain && p.target == q.target && p.root == q.root && p.admin == q.admin && p.inherit == q.inherit
    && forall c: nat, row: AclEvaluate.Row :: p.matches(c, row) == q.matches(c, row)
  }

  function Without<T>(s: seq<T>, r: nat): seq<T>
    requires r < |s|
  {
    s[..r] + s[r + 1..]
  }

  lemma VisitAlike(p: Query, q: Query, c: nat, row: AclEvaluate.Row, w: Walk)
    requires Alike(p, q)
    ensures Visit(p, c, row, w) == Visit(q, c, row, w)
  {}

  lemma {:induction false} VisitRowsAlike(p: Query, q: Query, c: nat, rows: seq<AclEvaluate.Row>, w: Walk)
    requires Alike(p, q)
    ensures VisitRows(p, c, rows, w) == VisitRows(q, c, rows, w)
    decreases |rows|
  {
    if rows != [] {
      VisitRowsAlike(p, q, c, rows[..|rows| - 1], w);
      var v := VisitRows(q, c, rows[..|rows| - 1], w);
      if v.Ok? { VisitAlike(p, q, c, rows[|rows| - 1], v.value); }
      hide Visit;
    }
  }

  lemma {:induction false} RowSkipped(p: Query, q: Query, c: nat, rows: seq<AclEvaluate.Row>, r: nat, w: Walk)
    requires Alike(p, q) && r < |rows| && q.matches(c, rows[r]) == Ok(false)
    ensures VisitRows(p, c, Without(rows, r), w) == VisitRows(q, c, rows, w)
    decreases |rows|
  {
    hide Visit;
    var init := rows[..|rows| - 1];
    if r == |rows| - 1 {
      assert Without(rows, r) == init;
      VisitRowsAlike(p, q, c, init, w);
    } else {
      var less := Without(rows, r);
      assert less[..|less| - 1] == Without(init, r) && less[|less| - 1] == rows[|rows| - 1];
      RowSkipped(p, q, c, init, r, w);
      var v := VisitRows(q, c, init, w);
      if v.Ok? { VisitAlike(p, q, c, rows[|rows| - 1], v.value); }
    }
  }

  /** p has the rows of q but for row r of channel c. */
  ghost predicate OneRowLess(p: Query, q: Query, c: nat, r: nat) {
    && Alike(p, q) && q.rows(c).Ok? && r < |q.rows(c).value| && p.rows(c) == Ok(Without(q.rows(c).value, r))
    && forall x: nat :: x != c ==> p.rows(x) == q.rows(x)
  }

  lemma ChannelSkipped(p: Query, q: Query, c: nat, r: nat, x: nat, w: Walk)
    requires OneRowLess(p, q, c, r) && q.matches(c, q.rows(c).value[r]) == Ok(false)
    ensures VisitChannel(p, x, w) == VisitChannel(q, x, w)
  {
    hide VisitRows;
    if x in q.inherit && q.rows(x).Ok? {
      var start := if q.inherit[x] then w else w.(granted := Def(q));
      if x == c {
        RowSkipped(p, q, c, q.rows(c).value, r, start);
      } else {
        VisitRowsAlike(p, q, x, q.rows(x).value, start);
      }
    }
  }

  lemma {:induction false} ScanSkipped(p: Query, q: Query, c: nat, r: nat, path: seq<nat>)
    requires OneRowLess(p, q, c, r) && q.matches(c, q.rows(c).value[r]) == Ok(false)
    ensures Scan(p, path) == Scan(q, path)
    decreases |path|
  {
    hide VisitChannel;
    if path != [] {
      ScanSkipped(p, q, c, r, path[..|path| - 1]);
      var v := Scan(q, path[..|path| - 1]);
      if v.Ok? && v.value.Open? {
        ChannelSkipped(p, q, c, r, path[|path| - 1], v.value.walk);
      }
    }
  }

  /** A row that does not count changes nothing, errors and blocking included. */
  lemma Removable(p: Query, q: Query, c: nat, r: nat)
    requires OneRowLess(p, q, c, r) && q.matches(c, q.rows(c).value[r]) == Ok(false)
    ensures Permissions(p) == Permissions(q)
  {
    ScanSkipped(p, q, c, r, RootFirst(q.chain));
    hide Scan;
  }

  // ----- the last row that mentions a permission -----

  /** The row has something to say about m at the target, whoever asks: it is for the channel
      itself and is the target's, or for the channels below and is not, and it denies m or
      grants it, root-only permissions only as a row of the root for the root. */
  predicate Mentions(q: Query, c: nat, row: AclEvaluate.Row, m: nat) {
    && (if c == q.target then row.applyHere else row.applySubs)
    && (m in row.deny || (m in row.grant && m in ALL && (m in ROOT_ONLY ==> c == q.root == q.target)))
  }

  lemma MentionsVote(q: Query, c: nat, row: AclEvaluate.Row, m: nat)
    ensures PermissionVote(q, c, row, m).Some? <==> Mentions(q, c, row, m)
    ensures Mentions(q, c, row, m) ==> PermissionVote(q, c, row, m) == Some(m !in row.deny)
  {}

  ghost predicate NoneMentions(q: Query, c: nat, rows: seq<AclEvaluate.Row>, m: nat) {
    forall i :: 0 <= i < |rows| ==> !Mentions(q, c, rows[i], m)
  }

  /** Row r of the k-th channel of the path mentions m; no later row of it does, and the
      channels after it inherit and say nothing about m. */
  ghost predicate LastMention(q: Query, path: seq<nat>, k: nat, r: nat, m: nat) {
    && AllReadable(q, path) && k < |path| && r < |q.rows(path[k]).value|
    && Mentions(q, path[k], q.rows(path[k]).value[r], m)
    && NoneMentions(q, path[k], q.rows(path[k]).value[r + 1..], m)
    && forall j :: k < j < |path| ==> q.inherit[path[j]] && NoneMentions(q, path[j], q.rows(path[j]).value, m)
  }

  lemma {:induction false} SilentTail(votes: seq<Option<bool>>, tail: seq<Option<bool>>, default: bool)
    requires forall i :: 0 <= i < |tail| ==> tail[i].None?
    ensures Last(votes + tail, default) == Last(votes, default)
    decreases |tail|
  {
    if tail == [] {
      assert votes + tail == votes;
    } else {
      var n := |tail| - 1;
      assert votes + tail == votes + tail[..n] + [tail[n]];
      SilentTail(votes, tail[..n], default);
      LastSnoc(votes + tail[..n], tail[n], default);
    }
  }

  lemma {:induction false} SilentRows(q: Query, c: nat, rows: seq<AclEvaluate.Row>, m: nat)
    requires RowsReadable(q, c, rows) && NoneMentions(q, c, rows, m)
    ensures forall i :: 0 <= i < |Matching(q, c, rows)| ==> PermissionVote(q, c, Matching(q, c, rows)[i], m).None?
    decreases |rows|
  {
    hide PermissionVote, Mentions;
    if rows != [] {
      SilentRows(q, c, rows[..|rows| - 1], m);
      MentionsVote(q, c, rows[|rows| - 1], m);
    }
  }

  lemma {:induction false} MatchingAppend(q: Query, c: nat, a: seq<AclEvaluate.Row>, b: seq<AclEvaluate.Row>)
    requires RowsReadable(q, c, a + b)
    ensures RowsReadable(q, c, a) && RowsReadable(q, c, b)
    ensures Matching(q, c, a + b) == Matching(q, c, a) + Matching(q, c, b)
    decreases |b|
  {
    assert forall i :: 0 <= i < |a| ==> a[i] == (a + b)[i];
    forall i | 0 <= i < |b| ensures q.matches(c, b[i]).Ok? {
      assert b[i] == (a + b)[|a| + i];
    }
    if b == [] {
      assert a + b == a;
      assert Matching(q, c, a) + [] == Matching(q, c, a);
    } else {
      var init := b[..|b| - 1];
      assert (a + b)[..|a + b| - 1] == a + init;
      assert forall i :: 0 <= i < |a + init| ==> (a + init)[i] == (a + b)[i];
      MatchingAppend(q, c, a, init);
    }
  }

  function Votes(q: Query, c: nat, rows: seq<AclEvaluate.Row>, m: nat): seq<Option<bool>> {
    Map(rows, row => PermissionVote(q, c, row, m))
  }

  /** In the channel's own rows the last mention decides if it counts. */
  lemma OwnRowsDecide(q: Query, c: nat, rows: seq<AclEvaluate.Row>, r: nat, m: nat, before: seq<Option<bool>>, d: bool)
    requires RowsReadable(q, c, rows) && r < |rows| && Mentions(q, c, rows[r], m)
    requires NoneMentions(q, c, rows[r + 1..], m) && q.matches(c, rows[r]).value
    ensures Last(before + Votes(q, c, Matching(q, c, rows), m), d) == (m !in rows[r].deny)
  {
    var head, row, tail := rows[..r], rows[r], rows[r + 1..];
    assert rows == head + ([row] + tail);
    MatchingAppend(q, c, head, [row] + tail);
    MatchingAppend(q, c, [row], tail);
    assert Matching(q, c, [row]) == [row] by { assert [row][..0] == []; }
    SilentRows(q, c, tail, m);
    MentionsVote(q, c, row, m);
    hide PermissionVote, Matching, Mentions;
    var first := Votes(q, c, Matching(q, c, head), m);
    var last := Votes(q, c, Matching(q, c, tail), m);
    var v := PermissionVote(q, c, row, m);
    assert before + Votes(q, c, Matching(q, c, rows), m) == before + first + [v] + last;
    SilentTail(before + first + [v], last, d);
    LastSnoc(before + first, v, d);
  }

  lemma HereDecides(q: Query, path: seq<nat>, r: nat, m: nat)
    requires path != [] && LastMention(q, path, |path| - 1, r, m)
    requires var c := path[|path| - 1]; q.matches(c, q.rows(c).value[r]).value
    ensures var c := path[|path| - 1]; Decided(q, path, m) == (m !in q.rows(c).value[r].deny)
  {
    hide PermissionVote, Matching, Last, Mentions;
    var c := path[|path| - 1];
    assert Readable(q, c);
    var reset := if q.inherit[c] then [] else [Some(m in Def(q))];
    OwnRowsDecide(q, c, q.rows(c).value, r, m, PermissionVotes(q, path[..|path| - 1], m) + reset, m in Def(q));
  }

  lemma SilentChannel(q: Query, path: seq<nat>, m: nat)
    requires path != [] && AllReadable(q, path)
    requires var c := path[|path| - 1]; q.inherit[c] && NoneMentions(q, c, q.rows(c).value, m)
    ensures AllReadable(q, path[..|path| - 1]) && Decided(q, path, m) == Decided(q, path[..|path| - 1], m)
  {
    hide PermissionVote, Matching, Last, Mentions;
    ReadableStep(q, path);
    var c := path[|path| - 1];
    assert Readable(q, c);
    var earlier := PermissionVotes(q, path[..|path| - 1], m);
    SilentRows(q, c, q.rows(c).value, m);
    assert earlier + [] == earlier;
    SilentTail(earlier, Votes(q, c, Matching(q, c, q.rows(c).value), m), m in Def(q));
  }

  /** The last row that mentions m decides it for those it counts for. */
  lemma {:induction false} LastMentionDecides(q: Query, path: seq<nat>, k: nat, r: nat, m: nat)
    requires LastMention(q, path, k, r, m) && q.matches(path[k], q.rows(path[k]).value[r]).value
    ensures Decided(q, path, m) == (m !in q.rows(path[k]).value[r].deny)
    decreases |path|
  {
    hide PermissionVote, Decided, Mentions;
    if k == |path| - 1 {
      HereDecides(q, path, r, m);
    } else {
      var init := path[..|path| - 1];
      SilentChannel(q, path, m);
      assert init[k] == path[k] && forall j :: k < j < |init| ==> init[j] == path[j];
      LastMentionDecides(q, init, k, r, m);
    }
  }

  // ----- who is meant -----

  /** Nothing stands in the way of the evaluation, and row r of the k-th channel from the root
      is the last that mentions m. */
  ghost predicate Settles(q: Query, k: nat, r: nat, m: nat) {
    && Rooted(q) && q.admin.Ok? && !BlockedOnTheWay(q, RootFirst(q.chain)) && m in ALL
    && LastMention(q, RootFirst(q.chain), k, r, m)
  }

  ghost function RowAt(q: Query, k: nat, r: nat): AclEvaluate.Row
    requires k < |q.chain| && q.rows(RootFirst(q.chain)[k]).Ok? && r < |q.rows(RootFirst(q.chain)[k]).value|
  {
    q.rows(RootFirst(q.chain)[k]).value[r]
  }

  /** What the subject ends up with is what the row says; only Write, where the subject has
      it, can still give back what the row denies. */
  ghost predicate GetsAsSaid(q: Query, row: AclEvaluate.Row, m: nat) {
    && Permissions(q).Ok?
    && (m !in row.deny ==> m in Permissions(q).value)
    && (m in row.deny ==>
          (m in Permissions(q).value <==>
             WRITE in Permissions(q).value && ByWrite(q, m)))
  }

  predicate ByWrite(q: Query, m: nat) {
    m in IMPLIED_BY_WRITE || (q.target == q.root && m in ROOT_ONLY)
  }

  lemma GrantedAs(q: Query, m: nat)
    requires Rooted(q) && q.admin.Ok? && AllReadable(q, RootFirst(q.chain)) && m in ALL
    requires !BlockedOnTheWay(q, RootFirst(q.chain))
    ensures var path := RootFirst(q.chain);
      && Permissions(q).Ok?
      && (m in Permissions(q).value <==> Decided(q, path, m) || (Decided(q, path, WRITE) && ByWrite(q, m)))
  {
    hide Permissions, Decided, AllReadable, BlockedOnTheWay;
    EvaluatesDeclaratively(q);
  }

  lemma WriteIsNotImplied(q: Query)
    ensures WRITE in ALL && !ByWrite(q, WRITE)
  {}

  lemma SettledAsSaid(q: Query, k: nat, r: nat, m: nat)
    requires Settles(q, k, r, m) && q.matches(RootFirst(q.chain)[k], RowAt(q, k, r)).value
    ensures GetsAsSaid(q, RowAt(q, k, r), m)
  {
    WriteIsNotImplied(q);
    GrantedAs(q, m);
    GrantedAs(q, WRITE);
    LastMentionDecides(q, RootFirst(q.chain), k, r, m);
    hide Permissions, Decided, BlockedOnTheWay, NoneMentions, ByWrite, Mentions;
  }

  /** The world without row r of channel c. */
  function Dropped(w: World, c: nat, r: nat): World
    requires w.rows(c).Ok? && r < |w.rows(c).value|
  {
    w.(rows := (x: nat) => if x == c then Ok(Without(w.rows(c).value, r)) else w.rows(x))
  }

  lemma DroppedAlike(w: World, u: Subject, target: nat, c: nat, r: nat)
    requires w.rows(c).Ok? && r < |w.rows(c).value|
    ensures OneRowLess(Asked(Dropped(w, c, r), u, target), Asked(w, u, target), c, r)
  {
    forall x: nat, row: AclEvaluate.Row
      ensures Matches(Dropped(w, c, r), u, target, x, row) == Matches(w, u, target, x, row)
    {
      if row.selector.Group? {
        assert GroupQuery(Dropped(w, c, r), u, row.selector.name, Context(target, x, row.selector))
            == GroupQuery(w, u, row.selector.name, Context(target, x, row.selector));
      }
    }
  }

  /** End to end: for the subjects it is meant for the row settles m, and for everybody else
      the evaluation is as if the row were not there. */
  lemma SettlesForThoseMeant(w: World, u: Subject, target: nat, k: nat, r: nat, m: nat)
    requires Settles(Asked(w, u, target), k, r, m)
    ensures var q := Asked(w, u, target); var c, row := RootFirst(q.chain)[k], RowAt(q, k, r);
      if Meant(w, u, target, c, row.selector) then GetsAsSaid(q, row, m)
      else Permissions(Asked(Dropped(w, c, r), u, target)) == Permissions(q)
  {
    var q := Asked(w, u, target);
    var c, row := RootFirst(q.chain)[k], RowAt(q, k, r);
    assert Readable(q, c);
    MeantExactly(w, u, target, c, row);
    hide Meant, Undecidable, Matches;
    if q.matches(c, row).value {
      SettledAsSaid(q, k, r, m);
    } else {
      DroppedAlike(w, u, target, c, r);
      Removable(Asked(Dropped(w, c, r), u, target), q, c, r);
    }
  }

  /** A row for everybody settles its permissions for every subject, and a row for nobody can
      be taken away without any effect, wherever it stands. */
  lemma EverybodyAndNobody(w: World, u: Subject, target: nat, k: nat, r: nat, m: nat, here: bool)
    ensures var q := Asked(w, u, target);
      && (Settles(q, k, r, m) && RowAt(q, k, r).selector == Group("all", false, here, false, false) ==>
            GetsAsSaid(q, RowAt(q, k, r), m))
      && (w.rows(k).Ok? && r < |w.rows(k).value|
          && w.rows(k).value[r].selector == Group("none", false, here, false, false) ==>
            Permissions(Asked(Dropped(w, k, r), u, target)) == Permissions(q))
  {
    var q := Asked(w, u, target);
    if Settles(q, k, r, m) && RowAt(q, k, r).selector == Group("all", false, here, false, false) {
      SettledAsSaid(q, k, r, m);
    }
    if w.rows(k).Ok? && r < |w.rows(k).value|
      && w.rows(k).value[r].selector == Group("none", false, here, false, false) {
      DroppedAlike(w, u, target, k, r);
      Removable(Asked(Dropped(w, k, r), u, target), q, k, r);
    }
  }

  /** The row counts for the subject. */
  ghost predicate Counts(w: World, u: Subject, target: nat, c: nat, s: Selector) {
    Matches(w, u, target, c, Row({}, {}, true, true, s)) == Ok(true)
  }

  /** Of two rows for those inside and those outside of the same channel exactly one counts
      for a subject; an offline subject is outside of everything. */
  lemma InsideOrOutside(w: World, u: Subject, target: nat, c: nat, here: bool)
    ensures var inside, outside := Group("in", false, here, false, false), Group("out", false, here, false, false);
      && (Counts(w, u, target, c, inside) <==> !Counts(w, u, target, c, outside))
      && (Counts(w, u, target, c, inside) ==> u.session.Some? && u.channel == if here then c else target)
      && (u.session.Some? && u.channel == (if here then c else target) ==> Counts(w, u, target, c, inside))
  {}

  /** What a subject shows: being registered, a verified certificate, this certificate, this
      access token; all but the first only while it is connected. */
  lemma WhatIsShown(w: World, u: Subject, target: nat, c: nat, name: string, here: bool)
    requires name != ""
    ensures Counts(w, u, target, c, Group("auth", false, here, false, false)) <==> u.id != 0
    ensures Counts(w, u, target, c, Group("strong", false, here, false, false)) <==> u.session.Some? && u.verified
    ensures Counts(w, u, target, c, Group(name, false, here, false, true)) <==> u.session.Some? && u.certHash == name
    ensures forall cert :: Counts(w, u, target, c, Group(name, false, here, true, cert)) <==>
                           u.session.Some? && w.hasToken(name)
  {}

  /** A row for an account counts for that account alone: for the account with its number,
      taken modulo 2^32, unless that is the anonymous one or the row names nobody. */
  lemma OneAccount(w: World, u: Subject, v: Subject, target: nat, c: nat, id: int)
    requires u.id < 0x1_0000_0000 && v.id < 0x1_0000_0000
    ensures 0 <= id < 0x1_0000_0000 ==>
      (Counts(w, u, target, c, Account(id, false)) <==> id != 0 && u.id == id)
    ensures Counts(w, u, target, c, Account(id, false)) && Counts(w, v, target, c, Account(id, false)) ==>
      u.id == v.id != 0
    ensures !Counts(w, u, target, c, Account(-1, false))
  {}

  function Inverse(s: Selector): Selector {
    s.(invert := !s.invert)
  }

  /** Inverting a selector swaps for whom it counts, exactly if it has a name at all: a group
      without a name counts for nobody either way. */
  lemma InvertingSwaps(w: World, u: Subject, target: nat, c: nat, row: AclEvaluate.Row)
    requires Matches(w, u, target, c, row).Ok?
    ensures (Counts(w, u, target, c, Inverse(row.selector)) <==> !Counts(w, u, target, c, row.selector))
            <==> !(row.selector.Group? && row.selector.name == "")
    ensures row.selector.Group? && row.selector.name == "" ==> !Counts(w, u, target, c, row.selector)
  {
    if row.selector.Group? {
      assert GroupMatches(w, u, target, c, Inverse(row.selector)) == GroupMatches(w, u, target, c, row.selector);
    }
  }

  /** Groups given from outside: a connected subject's external groups count by name, and an
      API user is in `admin` exactly as its role says. */
  lemma GivenGroups(w: World, u: Subject, target: nat, c: nat, name: string, here: bool)
    requires name != "" && !Reserved(name)
    ensures u.session.Some? && name in u.externalGroups ==>
      Counts(w, u, target, c, Group(name, false, here, false, false))
    ensures u.apiUser && !(u.session.Some? && name in u.externalGroups) && name == "admin" ==>
      Matches(w, u, target, c, Row({}, {}, true, true, Group(name, false, here, false, false))) == w.admin
  {}
}
