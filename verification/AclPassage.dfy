/** Passing and default permissions (internal/acl/evaluator.go): when a path is closed to a
    subject, when it is open, and what holds where no row says anything. */
module AclPassage {
  import opened Results
  import opened AclEvaluate
  import opened AclRows
  import AclSelectors

  type Row = AclEvaluate.Row

  // ----- rows about passing -----

  /** A row is about passing through channel c if it is for the channel itself, be that the
      target or not, or for the channels below one that is not the target. */
  predicate AboutPassing(q: Query, c: nat, row: Row) {
    row.applyHere || (c != q.target && row.applySubs)
  }

  /** A row is about the target. */
  predicate AboutTarget(q: Query, c: nat, row: Row) {
    if c == q.target then row.applyHere else row.applySubs
  }

  ghost predicate RowOnPath(q: Query, path: seq<nat>, c: nat, row: Row) {
    c in path && q.rows(c).Ok? && row in q.rows(c).value
  }

  ghost predicate NobodyDeniesPassing(q: Query, path: seq<nat>) {
    forall c, row :: RowOnPath(q, path, c, row) && AboutPassing(q, c, row) ==> TRAVERSE !in row.deny
  }

  ghost predicate NobodyDeniesWrite(q: Query, path: seq<nat>) {
    forall c, row :: RowOnPath(q, path, c, row) && AboutTarget(q, c, row) ==> WRITE !in row.deny
  }

  ghost predicate NobodyGrantsWrite(q: Query, path: seq<nat>) {
    forall c, row :: RowOnPath(q, path, c, row) && AboutTarget(q, c, row) ==> WRITE !in row.grant
  }

  lemma {:induction false} NeverSaid(votes: seq<Option<bool>>, v: bool)
    requires Some(!v) !in votes
    ensures Last(votes, v) == v
    decreases |votes|
  {
    if votes != [] {
      NeverSaid(votes[..|votes| - 1], v);
    }
  }

  lemma PathStep(q: Query, path: seq<nat>, c: nat, row: Row)
    requires path != [] && RowOnPath(q, path[..|path| - 1], c, row)
    ensures RowOnPath(q, path, c, row)
  {}

  /** The votes on passing come from rows on the path. */
  lemma {:induction false} TraverseVoters(q: Query, path: seq<nat>, v: bool)
    requires AllReadable(q, path) && Some(v) in TraverseVotes(q, path)
    ensures exists c, row :: RowOnPath(q, path, c, row) && TraverseVote(q, c, row) == Some(v)
    decreases |path|
  {
    hide TraverseVote;
    var init, c := path[..|path| - 1], path[|path| - 1];
    ReadableStep(q, path);
    assert Readable(q, c);
    if Some(v) in TraverseVotes(q, init) {
      TraverseVoters(q, init, v);
      var d, row :| RowOnPath(q, init, d, row) && TraverseVote(q, d, row) == Some(v);
      PathStep(q, path, d, row);
    } else {
      var rows := q.rows(c).value;
      var i :| 0 <= i < |Matching(q, c, rows)| && TraverseVote(q, c, Matching(q, c, rows)[i]) == Some(v);
      AclSelectors.CountsExactly(q, c, rows, Matching(q, c, rows)[i]);
      assert RowOnPath(q, path, c, Matching(q, c, rows)[i]);
    }
  }

  lemma {:induction false} WriteVoters(q: Query, path: seq<nat>, v: bool)
    requires AllReadable(q, path) && Some(v) in WriteVotes(q, path)
    ensures exists c, row :: RowOnPath(q, path, c, row) && WriteVote(q, c, row) == Some(v)
    decreases |path|
  {
    hide WriteVote;
    var init, c := path[..|path| - 1], path[|path| - 1];
    ReadableStep(q, path);
    assert Readable(q, c);
    if Some(v) in WriteVotes(q, init) {
      WriteVoters(q, init, v);
      var d, row :| RowOnPath(q, init, d, row) && WriteVote(q, d, row) == Some(v);
      PathStep(q, path, d, row);
    } else {
      var rows := q.rows(c).value;
      var i :| 0 <= i < |Matching(q, c, rows)| && WriteVote(q, c, Matching(q, c, rows)[i]) == Some(v);
      AclSelectors.CountsExactly(q, c, rows, Matching(q, c, rows)[i]);
      assert RowOnPath(q, path, c, Matching(q, c, rows)[i]);
    }
  }

  lemma PrefixOnPath(q: Query, path: seq<nat>, k: nat)
    requires k <= |path|
    ensures forall c, row :: RowOnPath(q, path[..k], c, row) ==> RowOnPath(q, path, c, row)
  {}

  /** A path is open to everybody if no row about passing denies Traverse, and to an API
      administrator if no row about the target denies Write. */
  lemma OpenPath(q: Query, path: seq<nat>)
    requires NobodyDeniesPassing(q, path) || (q.admin == Ok(true) && NobodyDeniesWrite(q, path))
    ensures !BlockedOnTheWay(q, path)
  {
    forall k | 0 <= k <= |path| ensures !BlockedPrefix(q, path[..k]) {
      var prefix := path[..k];
      PrefixOnPath(q, path, k);
      if AllReadable(q, prefix) {
        if NobodyDeniesPassing(q, path) {
          if Some(false) in TraverseVotes(q, prefix) { TraverseVoters(q, prefix, false); }
          NeverSaid(TraverseVotes(q, prefix), true);
        } else {
          if Some(false) in WriteVotes(q, prefix) { WriteVoters(q, prefix, false); }
          NeverSaid(WriteVotes(q, prefix), true);
        }
      }
    }
  }

  // ----- a path closed to a subject -----

  /** Row r of channel c counts, is about passing, denies Traverse, and no later row of the
      channel about passing mentions it. */
  ghost predicate Closes(q: Query, c: nat, r: nat) {
    && Readable(q, c) && r < |q.rows(c).value| && var rows := q.rows(c).value;
    && q.matches(c, rows[r]).value && AboutPassing(q, c, rows[r]) && TRAVERSE in rows[r].deny
    && forall i :: r < i < |rows| && AboutPassing(q, c, rows[i]) ==> TRAVERSE !in rows[i].grant + rows[i].deny
  }

  function PassingVotes(q: Query, c: nat, rows: seq<Row>): seq<Option<bool>> {
    Map(rows, row => TraverseVote(q, c, row))
  }

  lemma {:induction false} SilentOnPassing(q: Query, c: nat, rows: seq<Row>)
    requires RowsReadable(q, c, rows)
    requires forall i :: 0 <= i < |rows| ==> TraverseVote(q, c, rows[i]).None?
    ensures forall i :: 0 <= i < |Matching(q, c, rows)| ==> TraverseVote(q, c, Matching(q, c, rows)[i]).None?
    decreases |rows|
  {
    hide TraverseVote;
    if rows != [] {
      SilentOnPassing(q, c, rows[..|rows| - 1]);
    }
  }

  lemma ClosesHere(q: Query, c: nat, r: nat, before: seq<Option<bool>>)
    requires Closes(q, c, r)
    ensures !Last(before + PassingVotes(q, c, Matching(q, c, q.rows(c).value)), true)
  {
    var rows := q.rows(c).value;
    var head, row, tail := rows[..r], rows[r], rows[r + 1..];
    assert rows == head + ([row] + tail);
    MatchingAppend(q, c, head, [row] + tail);
    MatchingAppend(q, c, [row], tail);
    assert Matching(q, c, [row]) == [row] by { assert [row][..0] == []; }
    forall i | 0 <= i < |tail| ensures TraverseVote(q, c, tail[i]).None? {
      assert tail[i] == rows[r + 1 + i];
    }
    SilentOnPassing(q, c, tail);
    assert TraverseVote(q, c, row) == Some(false);
    hide TraverseVote, Matching;
    var first := PassingVotes(q, c, Matching(q, c, head));
    var last := PassingVotes(q, c, Matching(q, c, tail));
    assert before + PassingVotes(q, c, Matching(q, c, rows)) == before + first + [Some(false)] + last;
    SilentTail(before + first + [Some(false)], last, true);
    LastSnoc(before + first, Some(false), true);
  }

  lemma PassageLost(q: Query, prefix: seq<nat>, r: nat)
    requires prefix != [] && AllReadable(q, prefix) && Closes(q, prefix[|prefix| - 1], r)
    ensures !Last(TraverseVotes(q, prefix), true)
  {
    hide Closes, Matching, Last, TraverseVote, RowsReadable;
    var k := |prefix| - 1;
    assert Readable(q, prefix[k]);
    ClosesHere(q, prefix[k], r, TraverseVotes(q, prefix[..k]));
  }

  lemma WriteNotEarned(q: Query, prefix: seq<nat>)
    requires q.admin == Ok(false) && AllReadable(q, prefix) && NobodyGrantsWrite(q, prefix)
    ensures !Last(WriteVotes(q, prefix), WRITE in Def(q))
  {
    hide AllReadable, WriteVotes, Last;
    if Some(true) in WriteVotes(q, prefix) {
      WriteVoters(q, prefix, true);
    }
    NeverSaid(WriteVotes(q, prefix), false);
  }

  /** A channel that denies passing closes the path to everybody it counts for who has no
      Write from a row or a role: they get nothing at all behind it. */
  lemma DeniedPassingBlocks(q: Query, k: nat, r: nat)
    requires Rooted(q) && k < |q.chain| && q.admin == Ok(false)
    requires var path := RootFirst(q.chain);
      AllReadable(q, path[..k + 1]) && Closes(q, path[k], r) && NobodyGrantsWrite(q, path[..k + 1])
    ensures Permissions(q) == Ok({})
  {
    hide Permissions, AllReadable, Closes, NobodyGrantsWrite, Decided, Last, TraverseVotes, WriteVotes;
    var path := RootFirst(q.chain);
    assert path[..k + 1][k] == path[k];
    PassageLost(q, path[..k + 1], r);
    WriteNotEarned(q, path[..k + 1]);
    EvaluatesDeclaratively(q);
    assert BlockedPrefix(q, path[..k + 1]);
    assert BlockedOnTheWay(q, path);
  }

  // ----- where nothing is said -----

  /** From the k-th channel on nothing is said about m, after the default was put back there
      or has never been touched. */
  ghost predicate LeftAlone(q: Query, path: seq<nat>, k: nat, m: nat) {
    && AllReadable(q, path) && k <= |path|
    && (k == 0 || (k < |path| && !q.inherit[path[k]]))
    && forall j :: k <= j < |path| ==> NoneMentions(q, path[j], q.rows(path[j]).value, m)
  }

  /** A default permission, or Write for an API administrator. */
  predicate ByDefault(q: Query, m: nat) {
    m in DEFAULT || (m == WRITE && q.admin == Ok(true))
  }

  lemma SilentChannelKeeps(q: Query, path: seq<nat>, m: nat)
    requires path != [] && AllReadable(q, path)
    requires NoneMentions(q, path[|path| - 1], q.rows(path[|path| - 1]).value, m)
    ensures AllReadable(q, path[..|path| - 1])
    ensures Decided(q, path, m) ==
            if q.inherit[path[|path| - 1]] then Decided(q, path[..|path| - 1], m)
            else ByDefault(q, m)
  {
    ReadableStep(q, path);
    var c := path[|path| - 1];
    if q.inherit[c] {
      SilentChannel(q, path, m);
    } else {
      hide PermissionVote, Matching, Last, Mentions;
      assert Readable(q, c);
      var earlier := PermissionVotes(q, path[..|path| - 1], m);
      SilentRows(q, c, q.rows(c).value, m);
      SilentTail(earlier + [Some(m in Def(q))], Votes(q, c, Matching(q, c, q.rows(c).value), m), m in Def(q));
      LastSnoc(earlier, Some(m in Def(q)), m in Def(q));
    }
  }

  lemma DefaultAtStart(q: Query, path: seq<nat>, m: nat)
    requires path == []
    ensures Decided(q, path, m) <==> ByDefault(q, m)
  {}

  /** Where no row mentions m, or none since a channel that does not inherit, the subject has
      m exactly if it has it by default. */
  lemma {:induction false} DefaultHolds(q: Query, path: seq<nat>, k: nat, m: nat)
    requires LeftAlone(q, path, k, m)
    ensures Decided(q, path, m) <==> ByDefault(q, m)
    decreases |path|
  {
    hide NoneMentions, Decided, ByDefault;
    if path == [] {
      DefaultAtStart(q, path, m);
    } else {
      var init := path[..|path| - 1];
      SilentChannelKeeps(q, path, m);
      if q.inherit[path[|path| - 1]] {
        assert forall j :: 0 <= j < |init| ==> init[j] == path[j];
        DefaultHolds(q, init, k, m);
      }
    }
  }
}
