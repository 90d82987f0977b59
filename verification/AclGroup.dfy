/** Membership in stored channel groups (internal/acl/group.go): the stack of definitions
    collected along the ancestor chain, and the rule it implements. */
module AclGroup {
  import opened Results
  import opened Sessions
  import TemporaryMembers

  datatype Error = NoPath | Storage

  datatype Definition = Definition(channel: nat, inherit: bool, inheritable: bool, adds: seq<nat>, removes: seq<nat>)

  /** One question: the chain of the context channel (context first), the stored definitions
      of the group by channel, its temporary members, and the subject. */
  datatype Query = Query(
    chain: seq<nat>, context: nat, root: nat,
    rows: nat -> Result<seq<Definition>, Error>, temporary: map<nat, TemporaryMembers.Members>,
    id: nat, session: Option<SessionRef>)

  /** The definition that stands at a channel: the first stored row, or a neutral one when
      the group has only temporary members there. */
  function GroupAt(q: Query, c: nat): Result<Option<Definition>, Error> {
    match q.rows(c)
    case Err(e) => Err(e)
    case Ok(rows) =>
      if rows != [] then Ok(Some(rows[0].(channel := c)))
      else if c in q.temporary then Ok(Some(Definition(c, true, true, [], [])))
      else Ok(None)
  }

  predicate TemporaryMember(q: Query, c: nat) {
    c in q.temporary
    && ((q.id != 0 && q.id in q.temporary[c].users)
        || (q.session.Some? && q.session.value.generation != 0 && q.session.value in q.temporary[c].sessions))
  }

  predicate Adds(q: Query, g: Definition) {
    (q.id != 0 && q.id in g.adds) || TemporaryMember(q, g.channel)
  }

  predicate Removes(q: Query, g: Definition) {
    q.id != 0 && q.id in g.removes
  }

  predicate Mentions(q: Query, g: Definition) {
    Adds(q, g) || Removes(q, g)
  }

  // ----- the stack -----

  function Collect(q: Query, i: nat): Result<seq<Definition>, Error>
    decreases |q.chain| - i
  {
    if i >= |q.chain| then Ok([])
    else
      match GroupAt(q, q.chain[i])
      case Err(e) => Err(e)
      case Ok(None) => Collect(q, i + 1)
      case Ok(Some(g)) =>
        if q.chain[i] != q.context && !g.inheritable then Ok([])
        else if !g.inherit then Ok([g])
        else
          match Collect(q, i + 1)
          case Err(e) => Err(e)
          case Ok(rest) => Ok([g] + rest)
  }

  /** Definitions override from the far end to the near one. */
  function Override(q: Query, stack: seq<Definition>): bool
    decreases |stack|
  {
    if stack == [] then false
    else
      var match' := if Adds(q, stack[0]) then true else Override(q, stack[1..]);
      if Removes(q, stack[0]) then false else match'
  }

  predicate Rooted(q: Query) {
    q.chain != [] && q.chain[|q.chain| - 1] == q.root
  }

  function Member(q: Query): Result<bool, Error> {
    if !Rooted(q) then Err(NoPath)
    else
      match Collect(q, 0)
      case Err(e) => Err(e)
      case Ok(stack) => Ok(Override(q, stack))
  }

  // ----- the rule -----

  /** The search goes past channel c: nothing is defined there, or a definition that is
      visible from the context and inherits. */
  predicate Passes(q: Query, c: nat) {
    GroupAt(q, c).Ok? && (GroupAt(q, c).value.Some? ==> Usable(q, c) && GroupAt(q, c).value.value.inherit)
  }

  predicate Usable(q: Query, c: nat) {
    && GroupAt(q, c).Ok? && GroupAt(q, c).value.Some?
    && (c == q.context || GroupAt(q, c).value.value.inheritable)
  }

  predicate Reached(q: Query, i: nat) {
    i < |q.chain| && forall j :: 0 <= j < i ==> Passes(q, q.chain[j])
  }

  predicate Visible(q: Query, i: nat) {
    Reached(q, i) && Usable(q, q.chain[i])
  }

  predicate Speaks(q: Query, i: nat) {
    Visible(q, i) && Mentions(q, GroupAt(q, q.chain[i]).value.value)
  }

  /** Definition i is the nearest visible one, from `start` on, that mentions the subject. */
  ghost predicate Nearest(q: Query, start: nat, i: nat) {
    start <= i && Speaks(q, i) && forall j: nat :: start <= j < i ==> !Speaks(q, j)
  }

  ghost predicate Accepted(q: Query, start: nat) {
    exists i: nat :: Nearest(q, start, i) && !Removes(q, GroupAt(q, q.chain[i]).value.value)
  }

  ghost predicate Unreadable(q: Query, start: nat) {
    exists i: nat :: start <= i && Reached(q, i) && GroupAt(q, q.chain[i]).Err?
  }

  lemma NothingBeyond(q: Query, i: nat)
    requires i < |q.chain| && !Passes(q, q.chain[i])
    ensures forall k: nat :: i < k ==> !Reached(q, k)
  {}

  /** A definition that mentions the subject settles it for everything behind it. */
  lemma SpeakerSettles(q: Query, i: nat)
    requires Speaks(q, i)
    ensures Accepted(q, i) <==> !Removes(q, GroupAt(q, q.chain[i]).value.value)
  {
    hide Speaks;
    assert Nearest(q, i, i);
    forall k: nat | Nearest(q, i, k) ensures k == i {}
  }

  lemma SilentPassesOn(q: Query, i: nat)
    requires !Speaks(q, i)
    ensures Accepted(q, i) <==> Accepted(q, i + 1)
  {
    hide Speaks, Removes, GroupAt;
    forall k: nat ensures Nearest(q, i, k) <==> Nearest(q, i + 1, k) {}
  }

  lemma NobodySpeaks(q: Query, i: nat)
    requires forall k: nat :: i <= k ==> !Reached(q, k)
    ensures !Accepted(q, i) && !Unreadable(q, i)
  {
    hide Reached;
  }

  lemma {:induction false} CollectFollowsRule(q: Query, i: nat)
    requires i < |q.chain| ==> Reached(q, i)
    ensures Collect(q, i).Err? <==> Unreadable(q, i)
    ensures Collect(q, i).Ok? ==> (Override(q, Collect(q, i).value) <==> Accepted(q, i))
    decreases |q.chain| - i
  {
    if i >= |q.chain| {
      NobodySpeaks(q, i);
    } else if GroupAt(q, q.chain[i]).Ok? {
      if Passes(q, q.chain[i]) {
        CollectFollowsRule(q, i + 1);
        assert Unreadable(q, i) <==> Unreadable(q, i + 1);
      } else {
        NothingBeyond(q, i);
        NobodySpeaks(q, i + 1);
        assert !Unreadable(q, i);
      }
      hide Reached, GroupAt, Accepted, Unreadable;
      if Speaks(q, i) {
        SpeakerSettles(q, i);
      } else {
        SilentPassesOn(q, i);
      }
    }
  }

  /** Stored membership is nearest-definition-wins: among the definitions visible through
      inherit and inheritable, the one closest to the context that mentions the subject
      decides, and inside it remove beats add and temporary membership. */
  lemma NearestDefinitionWins(q: Query)
    ensures Member(q).Err? <==> !Rooted(q) || Unreadable(q, 0)
    ensures Member(q).Ok? ==> (Member(q).value <==> Accepted(q, 0))
  {
    CollectFollowsRule(q, 0);
  }

  // ----- the loops -----

  function Prepend(stack: seq<Definition>, rest: Result<seq<Definition>, Error>): Result<seq<Definition>, Error> {
    match rest
    case Err(e) => Err(e)
    case Ok(r) => Ok(stack + r)
  }

  method StoredGroup(q: Query) returns (r: Result<bool, Error>)
    ensures r == Member(q)
    ensures r.Err? <==> !Rooted(q) || Unreadable(q, 0)
    ensures r.Ok? ==> (r.value <==> Accepted(q, 0))
  {
    NearestDefinitionWins(q);
    hide Unreadable, Accepted, Override;
    if |q.chain| == 0 || q.chain[|q.chain| - 1] != q.root { return Err(NoPath); }
    var stack := BuildStack(q);
    if stack.Err? { return Err(stack.error); }
    var member := OverrideAll(q, stack.value);
    return Ok(member);
  }

  lemma PrependLaws(stack: seq<Definition>, g: Definition, rest: Result<seq<Definition>, Error>)
    ensures Prepend([], rest) == rest
    ensures Prepend(stack, Ok([])) == Ok(stack)
    ensures Prepend(stack, Ok([g])) == Ok(stack + [g])
    ensures Prepend(stack, Prepend([g], rest)) == Prepend(stack + [g], rest)
  {
    if rest.Ok? {
      assert [] + rest.value == rest.value;
      assert stack + ([g] + rest.value) == stack + [g] + rest.value;
    }
    assert stack + [] == stack;
  }

  lemma CollectStep(q: Query, i: nat, g: Definition)
    requires i < |q.chain| && GroupAt(q, q.chain[i]) == Ok(Some(g))
    ensures Collect(q, i) == if q.chain[i] != q.context && !g.inheritable then Ok([]) else if !g.inherit then Ok([g])
      else Prepend([g], Collect(q, i + 1))
  {}

  method BuildStack(q: Query) returns (r: Result<seq<Definition>, Error>)
    ensures r == Collect(q, 0)
  {
    var stack: seq<Definition> := [];
    var i := 0;
    PrependLaws([], Definition(0, false, false, [], []), Collect(q, 0));
    while i < |q.chain|
      invariant 0 <= i <= |q.chain|
      invariant Collect(q, 0) == Prepend(stack, Collect(q, i))
    {
      var c := q.chain[i];
      var rows := q.rows(c);
      if rows.Err? { return Err(rows.error); }
      if |rows.value| == 0 && c !in q.temporary {
        i := i + 1;
        continue;
      }
      var g := if |rows.value| == 0 then Definition(c, true, true, [], []) else rows.value[0].(channel := c);
      CollectStep(q, i, g);
      PrependLaws(stack, g, Collect(q, i + 1));
      hide Collect, Prepend;
      if c != q.context && !g.inheritable { return Ok(stack); }
      stack := stack + [g];
      if !g.inherit { return Ok(stack); }
      i := i + 1;
    }
    PrependLaws(stack, Definition(0, false, false, [], []), Ok([]));
    return Ok(stack);
  }

  method OverrideAll(q: Query, stack: seq<Definition>) returns (member: bool)
    ensures member == Override(q, stack)
  {
    member := false;
    var i := |stack|;
    while i > 0
      invariant 0 <= i <= |stack| && member == Override(q, stack[i..])
    {
      i := i - 1;
      assert stack[i..][1..] == stack[i + 1..];
      var g := stack[i];
      if (q.id != 0 && q.id in g.adds) || TemporaryMember(q, g.channel) { member := true; }
      if q.id != 0 && q.id in g.removes { member := false; }
    }
    assert stack[0..] == stack;
  }
}
