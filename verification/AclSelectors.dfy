/** Whom an ACL row is about (internal/acl/group.go), and the whole evaluation with it: rows
    for stored groups are decided by the nearest definition that mentions the subject. */
module AclSelectors {
  import opened Results
  import opened Sessions
  import AclEvaluate
  import AclGroup
  import TemporaryMembers

  type Row = AclEvaluate.Row
  type Selector = AclEvaluate.Selector

  // ----- parsing -----

  const MODIFIERS := {'!', '~', '#', '$'}

  /** A selector text is a run of modifiers, in any order and repeated at will, and a name. */
  method ParseSelector(text: string) returns (r: Selector, ghost n: nat)
    ensures r.Group? && n <= |text| && r.name == text[n..]
    ensures (forall i :: 0 <= i < n ==> text[i] in MODIFIERS) && (n < |text| ==> text[n] !in MODIFIERS)
    ensures r.invert == ('!' in text[..n]) && r.here == ('~' in text[..n])
    ensures r.token == ('#' in text[..n]) && r.cert == ('$' in text[..n])
  {
    var invert, here, token, cert := false, false, false, false;
    var k := 0;
    while k < |text|
      invariant k <= |text| && forall i :: 0 <= i < k ==> text[i] in MODIFIERS
      invariant invert == ('!' in text[..k]) && here == ('~' in text[..k])
      invariant token == ('#' in text[..k]) && cert == ('$' in text[..k])
    {
      assert text[..k + 1] == text[..k] + [text[k]];
      match text[k] {
        case '!' => invert := true;
        case '~' => here := true;
        case '#' => token := true;
        case '$' => cert := true;
        case _ => break;
      }
      k := k + 1;
    }
    r, n := AclEvaluate.Group(text[k..], invert, here, token, cert), k;
  }

  // ----- matching -----

  /** The subject: account, connection, channel, and what it presents. */
  datatype Subject = Subject(
    id: nat, session: Option<SessionRef>, channel: nat, apiUser: bool, certHash: string, verified: bool,
    externalGroups: set<string>)

  /** What evaluating for one subject reads: the channel tree, the stored rows and groups, the
      temporary members, the API role, and the token and subtree tests. */
  datatype World = World(
    root: nat, chain: nat -> seq<nat>, inherit: map<nat, bool>,
    rows: nat -> Result<seq<Row>, AclEvaluate.Error>,
    groups: (string, nat) -> Result<seq<AclGroup.Definition>, AclGroup.Error>,
    temporary: string -> map<nat, TemporaryMembers.Members>,
    admin: Result<bool, AclEvaluate.Error>, hasToken: string -> bool, inSub: (string, nat, nat) -> bool)

  function GroupQuery(w: World, u: Subject, name: string, context: nat): AclGroup.Query {
    AclGroup.Query(w.chain(context), context, w.root, (c: nat) => w.groups(name, c), w.temporary(name), u.id, u.session)
  }

  predicate Reserved(name: string) {
    name in {"none", "all", "auth", "strong", "in", "out", "sub"} || "sub," <= name
  }

  /** The row's selector names a group kept in the database or in temporary members. */
  predicate Stored(u: Subject, s: Selector) {
    && s.Group? && s.name != "" && !s.token && !s.cert && !Reserved(s.name)
    && !(u.session.Some? && s.name in u.externalGroups) && !(s.name == "admin" && u.apiUser)
  }

  function Context(target: nat, c: nat, s: Selector): nat
    requires s.Group?
  {
    if s.here then c else target
  }

  function GroupMatches(w: World, u: Subject, target: nat, c: nat, s: Selector): Result<bool, AclEvaluate.Error>
    requires s.Group?
  {
    var online, context := u.session.Some?, Context(target, c, s);
    if s.token then Ok(online && w.hasToken(s.name))
    else if s.cert then Ok(online && u.certHash == s.name)
    else if s.name == "none" then Ok(false)
    else if s.name == "all" then Ok(true)
    else if s.name == "auth" then Ok(u.id > 0)
    else if s.name == "strong" then Ok(online && u.verified)
    else if s.name == "in" then Ok(online && u.channel == context)
    else if s.name == "out" then Ok(!online || u.channel != context)
    else if Reserved(s.name) then Ok(online && w.inSub(s.name, target, context))
    else if online && s.name in u.externalGroups then Ok(true)
    else if s.name == "admin" && u.apiUser then w.admin
    else
      match AclGroup.Member(GroupQuery(w, u, s.name, context))
      case Err(_) => Err(AclEvaluate.Selector)
      case Ok(b) => Ok(b)
  }

  function Matches(w: World, u: Subject, target: nat, c: nat, row: Row): Result<bool, AclEvaluate.Error> {
    match row.selector
    case Account(id, invert) => Ok((u.id != 0 && id != -1 && id % 0x1_0000_0000 == u.id) != invert)
    case Group(name, invert, _, _, _) =>
      if name == "" then Ok(false)
      else
        match GroupMatches(w, u, target, c, row.selector)
        case Err(e) => Err(e)
        case Ok(b) => Ok(b != invert)
  }

  /** The whole evaluation as one query. */
  function Asked(w: World, u: Subject, target: nat): AclEvaluate.Query {
    AclEvaluate.Query(w.chain(target), target, w.root, if u.apiUser then w.admin else Ok(false), w.inherit, w.rows,
                      (c: nat, row: Row) => Matches(w, u, target, c, row))
  }

  /** The nearest visible definition of the group that mentions the subject accepts it. */
  ghost predicate Chosen(w: World, u: Subject, target: nat, c: nat, s: Selector)
    requires s.Group?
  {
    AclGroup.Accepted(GroupQuery(w, u, s.name, Context(target, c, s)), 0)
  }

  /** A row for a stored group counts for the subject if and only if the nearest visible
      definition, seen from the row's context, that mentions the subject does not remove it
      (or the opposite, inverted); it makes the evaluation fail exactly when the group's path
      or a reached definition cannot be read. */
  lemma StoredGroupRows(w: World, u: Subject, target: nat, c: nat, row: Row)
    requires Stored(u, row.selector)
    ensures var g := GroupQuery(w, u, row.selector.name, Context(target, c, row.selector));
      var r := Asked(w, u, target).matches(c, row);
      && (r.Err? <==> !AclGroup.Rooted(g) || AclGroup.Unreadable(g, 0))
      && (r.Ok? ==> (r.value <==> Chosen(w, u, target, c, row.selector) != row.selector.invert))
  {
    var g := GroupQuery(w, u, row.selector.name, Context(target, c, row.selector));
    AclGroup.NearestDefinitionWins(g);
    hide AclGroup.Member, AclGroup.Unreadable, AclGroup.Accepted, AclGroup.Rooted;
  }

  /** Everyone a group selector can mean, kind by kind, seen from the channel `context`. */
  ghost predicate Within(w: World, u: Subject, target: nat, c: nat, s: Selector)
    requires s.Group?
  {
    var online, context, plain := u.session.Some?, Context(target, c, s), !s.token && !s.cert;
    || (online && s.token && w.hasToken(s.name))
    || (online && s.cert && !s.token && u.certHash == s.name)
    || (plain && s.name == "all")
    || (plain && s.name == "auth" && u.id != 0)
    || (plain && s.name == "strong" && online && u.verified)
    || (plain && s.name == "in" && online && u.channel == context)
    || (plain && s.name == "out" && !(online && u.channel == context))
    || (plain && (s.name == "sub" || "sub," <= s.name) && online && w.inSub(s.name, target, context))
    || (plain && !Reserved(s.name) && online && s.name in u.externalGroups)
    || (plain && s.name == "admin" && u.apiUser && w.admin == Ok(true))
    || (Stored(u, s) && Chosen(w, u, target, c, s))
  }

  /** The account with this number, as 32 bits; never the anonymous one, and -1 is nobody. */
  predicate IsAccount(u: Subject, id: int) {
    u.id != 0 && id != -1 && id % 0x1_0000_0000 == u.id
  }

  /** Whom a row is about. */
  ghost predicate Meant(w: World, u: Subject, target: nat, c: nat, s: Selector) {
    match s
    case Account(id, invert) => IsAccount(u, id) != invert
    case Group(name, invert, _, _, _) => name != "" && Within(w, u, target, c, s) != invert
  }

  /** The selector cannot be decided: a stored group or the API role it needs is unreadable. */
  ghost predicate Undecidable(w: World, u: Subject, target: nat, c: nat, s: Selector) {
    s.Group? &&
    if Stored(u, s) then
      var g := GroupQuery(w, u, s.name, Context(target, c, s));
      !AclGroup.Rooted(g) || AclGroup.Unreadable(g, 0)
    else
      && s.name == "admin" && u.apiUser && !s.token && !s.cert && w.admin.Err?
      && !(u.session.Some? && s.name in u.externalGroups)
  }

  /** No two of the reserved names are the same, and `admin` is not one of them. */
  lemma NamesDiffer()
    ensures !Reserved("admin") && !("sub," <= "sub")
    ensures !("sub," <= "none") && !("sub," <= "all") && !("sub," <= "auth") && !("sub," <= "strong")
    ensures !("sub," <= "in") && !("sub," <= "out") && "all" != "sub" && "out" != "sub"
    ensures "all" != "out" && "none" != "auth"
  {
    assert "admin"[0] == 'a' && "sub,"[0] == 's';
    assert "all"[0] == 'a' && "out"[0] == 'o' && "sub"[0] == 's';
    assert "none"[0] == 'n' && "auth"[0] == 'a' && "strong"[1] == 't' && "sub,"[1] == 'u';
  }

  lemma NotStored(w: World, u: Subject, target: nat, c: nat, s: Selector)
    requires s.Group? && s.name != "" && !Stored(u, s)
    ensures var r := GroupMatches(w, u, target, c, s);
      && (r.Err? <==> Undecidable(w, u, target, c, s))
      && (r.Ok? ==> (r.value <==> Within(w, u, target, c, s)))
  {
    NamesDiffer();
    hide AclGroup.Member;
  }

  /** A row is about exactly those it is meant for, and fails exactly where it cannot tell. */
  lemma MeantExactly(w: World, u: Subject, target: nat, c: nat, row: Row)
    ensures var r := Asked(w, u, target).matches(c, row);
      && (r.Err? <==> Undecidable(w, u, target, c, row.selector))
      && (r.Ok? ==> (r.value <==> Meant(w, u, target, c, row.selector)))
  {
    var s := row.selector;
    if s.Group? && s.name != "" {
      if Stored(u, s) {
        StoredGroupRows(w, u, target, c, row);
        hide GroupMatches, Chosen, AclGroup.Unreadable, AclGroup.Rooted;
        assert Within(w, u, target, c, s) <==> Chosen(w, u, target, c, s);
      } else {
        NotStored(w, u, target, c, s);
        hide GroupMatches, Within, Undecidable;
      }
    }
  }

  /** Row i counts for the subject at channel c: it is among the matching rows exactly if its
      selector matches there. */
  lemma {:induction false} CountsExactly(q: AclEvaluate.Query, c: nat, rows: seq<Row>, row: Row)
    requires AclEvaluate.RowsReadable(q, c, rows)
    ensures row in AclEvaluate.Matching(q, c, rows) <==> row in rows && q.matches(c, row).Ok? && q.matches(c, row).value
    decreases |rows|
  {
    if rows != [] {
      var init := rows[..|rows| - 1];
      assert rows == init + [rows[|rows| - 1]];
      CountsExactly(q, c, init, row);
    }
  }

  /** Who gets which permission: when every row on the path is readable and nothing blocks it,
      permission m is granted as the last vote among the rows that count says, with what Write
      implies; and the rows that count are exactly those meant for the subject. */
  lemma WhoGetsWhat(w: World, u: Subject, target: nat, m: nat, c: nat, row: Row)
    requires var q := Asked(w, u, target);
      && AclEvaluate.Rooted(q) && q.admin.Ok? && AclEvaluate.AllReadable(q, AclEvaluate.RootFirst(q.chain))
      && !AclEvaluate.BlockedOnTheWay(q, AclEvaluate.RootFirst(q.chain))
    requires c in AclEvaluate.RootFirst(w.chain(target)) && w.rows(c).Ok? && row in w.rows(c).value
    ensures var q := Asked(w, u, target); var path := AclEvaluate.RootFirst(q.chain);
      && AclEvaluate.Permissions(q).Ok?
      && (m in AclEvaluate.Permissions(q).value <==>
            m in AclEvaluate.ALL &&
            (AclEvaluate.Decided(q, path, m)
             || (AclEvaluate.Decided(q, path, AclEvaluate.WRITE)
                 && (m in AclEvaluate.IMPLIED_BY_WRITE || (target == w.root && m in AclEvaluate.ROOT_ONLY)))))
      && AclEvaluate.Readable(q, c)
      && (row in AclEvaluate.Matching(q, c, w.rows(c).value) <==> Meant(w, u, target, c, row.selector))
  {
    var q := Asked(w, u, target);
    AclEvaluate.EvaluatesDeclaratively(q);
    assert AclEvaluate.Readable(q, c);
    hide AclEvaluate.Permissions, AclEvaluate.Decided, AclEvaluate.BlockedOnTheWay, Meant, Undecidable;
    MeantExactly(w, u, target, c, row);
    CountsExactly(q, c, w.rows(c).value, row);
    hide Matches;
  }
}
