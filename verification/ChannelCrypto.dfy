/** The aggregate crypto mode of channels (internal/mumble/handlers.go): kept per channel and
    combined over the component of linked channels. */
module ChannelCrypto {
  import opened ChannelLinks

  const MIXED := "mixed"

  /** A connected user: the channel and the negotiated mode, empty if none yet. */
  datatype Member = Member(channel: nat, mode: string)

  type Users = map<nat, Member>

  /** The modes in use in a channel. */
  function Modes(users: Users, c: nat): set<string> {
    set u | u in users && users[u].channel == c && users[u].mode != "" :: users[u].mode
  }

  /** No user's mode is the aggregate's own word. */
  predicate Plain(users: Users) {
    forall u :: u in users ==> users[u].mode != MIXED
  }

  /** What the table says about a channel; no entry is the empty mode. */
  function Noted(crypto: map<nat, string>, c: nat): string {
    if c in crypto then crypto[c] else ""
  }

  /** The table entry of c describes the users in c. */
  predicate Current(users: Users, crypto: map<nat, string>, c: nat) {
    if Modes(users, c) == {} then Noted(crypto, c) == ""
    else if Noted(crypto, c) == MIXED then exists a, b :: a in Modes(users, c) && b in Modes(users, c) && a != b
    else Modes(users, c) == {Noted(crypto, c)}
  }

  lemma OneOrMore(s: set<string>, a: string)
    requires a in s
    ensures |s| == 1 <==> s == {a}
    ensures |s| > 1 <==> exists b :: b in s && b != a
  {
    if |s| == 1 {
      assert |s - {a}| == 0;
    }
    if b :| b in s && b != a {
      assert {a, b} <= s;
      assert |s - {a} - {b}| == |s| - 2;
    }
    if |s| > 1 {
      assert |s - {a}| > 0;
      var b :| b in s - {a};
    }
  }

  method UpdateChannelCrypto(users: Users, crypto: map<nat, string>, c: nat) returns (crypto': map<nat, string>)
    ensures Plain(users) ==> Current(users, crypto', c)
    ensures forall d :: d != c ==> (d in crypto' <==> d in crypto) && Noted(crypto', d) == Noted(crypto, d)
  {
    var modes := CollectModes(users, c);
    var mode := "";
    if |modes| == 1 {
      var m :| m in modes;
      OneOrMore(modes, m);
      mode := m;
    } else if |modes| > 1 {
      ghost var m :| m in modes;
      OneOrMore(modes, m);
      mode := MIXED;
    }
    crypto' := if mode == "" then crypto - {c} else crypto[c := mode];
  }

  method CollectModes(users: Users, c: nat) returns (modes: set<string>)
    ensures modes == Modes(users, c)
  {
    modes := {};
    var todo := users.Keys;
    while todo != {}
      invariant todo <= users.Keys
      invariant modes == set u | u in users && u !in todo && users[u].channel == c
        && users[u].mode != "" :: users[u].mode
      decreases |todo|
    {
      var u :| u in todo;
      if users[u].channel == c && users[u].mode != "" { modes := modes + {users[u].mode}; }
      todo := todo - {u};
    }
  }

  predicate Differing(crypto: map<nat, string>, c: nat, d: nat) {
    Noted(crypto, c) != "" && Noted(crypto, d) != "" && Noted(crypto, c) != Noted(crypto, d)
  }

  /** The answer for some channels, from the table alone. */
  ghost predicate MixedOver(crypto: map<nat, string>, channels: set<nat>) {
    || (exists c :: c in channels && Noted(crypto, c) == MIXED)
    || (exists c, d :: c in channels && d in channels && Differing(crypto, c, d))
  }

  /** Nothing is mixed about a channel that does not exist. */
  method HasMixedCrypto(l: Links, crypto: map<nat, string>, channel: nat) returns (mixed: bool)
    ensures mixed <==> channel in l && MixedOver(crypto, Component(l, channel))
  {
    var ids := ConnectedIDs(l, channel);
    ghost var channels := AsSet(ids);
    assert channel in l ==> channels == Component(l, channel);
    hide Component;
    var all: set<string> := {};
    var i := 0;
    while i < |ids|
      invariant 0 <= i <= |ids|
      invariant forall j :: 0 <= j < i ==> Noted(crypto, ids[j]) != MIXED
      invariant forall m :: m in all <==> exists j :: 0 <= j < i && Noted(crypto, ids[j]) == m && m != ""
    {
      if ids[i] in crypto && crypto[ids[i]] != "" {
        if crypto[ids[i]] == MIXED {
          assert ids[i] in channels && Noted(crypto, ids[i]) == MIXED;
          return true;
        }
        all := all + {crypto[ids[i]]};
      }
      i := i + 1;
    }
    mixed := |all| > 1;
    MoreThanOne(crypto, ids, all);
    assert channel !in l ==> channels == {};
  }

  lemma MoreThanOne(crypto: map<nat, string>, ids: seq<nat>, all: set<string>)
    requires forall j :: 0 <= j < |ids| ==> Noted(crypto, ids[j]) != MIXED
    requires forall m :: m in all <==> exists j :: 0 <= j < |ids| && Noted(crypto, ids[j]) == m && m != ""
    ensures |all| > 1 <==> MixedOver(crypto, AsSet(ids))
  {
    if |all| > 1 {
      var a :| a in all;
      OneOrMore(all, a);
      var b :| b in all && b != a;
      var i :| 0 <= i < |ids| && Noted(crypto, ids[i]) == a && a != "";
      var j :| 0 <= j < |ids| && Noted(crypto, ids[j]) == b && b != "";
      assert ids[i] in ids && ids[j] in ids;
    }
    if c, d :| c in ids && d in ids && Differing(crypto, c, d) {
      assert Noted(crypto, c) in all && Noted(crypto, d) in all;
      OneOrMore(all, Noted(crypto, c));
    }
  }

  /** The answer is the same for every channel of a component, whatever the table says. */
  lemma SameAnswerForTheComponent(l: Links, crypto: map<nat, string>, a: nat, b: nat)
    requires a in l && b in Component(l, a)
    ensures MixedOver(crypto, Component(l, a)) == MixedOver(crypto, Component(l, b))
  {
    ComponentsPartition(l, a, b);
  }

  /** Two users in these channels use different modes. */
  ghost predicate Differ(users: Users, channels: set<nat>) {
    exists u, w :: u in users && w in users && users[u].channel in channels && users[w].channel in channels
                   && users[u].mode != "" && users[w].mode != "" && users[u].mode != users[w].mode
  }

  lemma ModesDiffer(users: Users, channels: set<nat>, c: nat, d: nat, a: string, b: string)
    requires c in channels && d in channels && a in Modes(users, c) && b in Modes(users, d) && a != b
    ensures Differ(users, channels)
  {
    var u :| u in users && users[u].channel == c && users[u].mode == a;
    var w :| w in users && users[w].channel == d && users[w].mode == b;
  }

  lemma MixedMeansDiffer(users: Users, crypto: map<nat, string>, channels: set<nat>)
    requires (forall c :: c in channels ==> Current(users, crypto, c)) && MixedOver(crypto, channels)
    ensures Differ(users, channels)
  {
    hide Modes, Differ;
    if c :| c in channels && Noted(crypto, c) == MIXED {
      assert Current(users, crypto, c);
      var a, b :| a in Modes(users, c) && b in Modes(users, c) && a != b;
      ModesDiffer(users, channels, c, c, a, b);
    } else {
      var c, d :| c in channels && d in channels && Differing(crypto, c, d);
      assert Current(users, crypto, c) && Current(users, crypto, d);
      ModesDiffer(users, channels, c, d, Noted(crypto, c), Noted(crypto, d));
    }
  }

  lemma DifferMeansMixed(users: Users, crypto: map<nat, string>, channels: set<nat>)
    requires (forall c :: c in channels ==> Current(users, crypto, c)) && Differ(users, channels)
    ensures MixedOver(crypto, channels)
  {
    var u, w :| u in users && w in users && users[u].channel in channels && users[w].channel in channels
                && users[u].mode != "" && users[w].mode != "" && users[u].mode != users[w].mode;
    var c, d := users[u].channel, users[w].channel;
    assert users[u].mode in Modes(users, c) && users[w].mode in Modes(users, d);
    hide Modes;
    assert Current(users, crypto, c) && Current(users, crypto, d);
  }

  /** With current entries, the answer says whether two users in these channels differ in
      mode. */
  lemma MixedExact(users: Users, crypto: map<nat, string>, channels: set<nat>)
    requires forall c :: c in channels ==> Current(users, crypto, c)
    ensures MixedOver(crypto, channels) <==> Differ(users, channels)
  {
    hide Current, MixedOver, Differ;
    if MixedOver(crypto, channels) { MixedMeansDiffer(users, crypto, channels); }
    if Differ(users, channels) { DifferMeansMixed(users, crypto, channels); }
  }
}
