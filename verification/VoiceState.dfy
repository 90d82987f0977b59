/** Mute and deafen flags and the delta echo (internal/mumble/voicestate.go and the end of
    handleUserState in internal/mumble/handlers.go): one message changes a user's voice
    flags, with cascades, and is itself rewritten so that it can be broadcast. */
module VoiceState {
  import opened Results
  import opened UserStateCodec

  // Field numbers, one above the presence bits.
  const SESSION := 1
  const ACTOR := 2
  const CHANNEL_ID := 5
  const MUTE := 6
  const DEAF := 7
  const SUPPRESS := 8
  const SELF_MUTE := 9
  const SELF_DEAF := 10
  const TEXTURE := 11
  const PLUGIN_CONTEXT := 12
  const PLUGIN_IDENTITY := 13
  const COMMENT := 14
  const PRIORITY_SPEAKER := 18
  const RECORDING := 19
  const VOICE: set<nat> := {MUTE, DEAF, SUPPRESS, SELF_MUTE, SELF_DEAF, PRIORITY_SPEAKER, RECORDING}
  const BROADCAST: set<nat> := VOICE + {CHANNEL_ID, TEXTURE, COMMENT}

  /** The flags that depend on each other: the administrator's pair and the user's own. */
  datatype Lane = Lane(mute: bool, deaf: bool)

  datatype Voice = Voice(admin: Lane, own: Lane, suppress: bool, prioritySpeaker: bool, recording: bool)

  const Quiet := Voice(Lane(false, false), Lane(false, false), false, false, false)

  /** A deafened user is muted, by the server's flags and by the user's own. */
  predicate Sane(v: Voice) {
    (v.admin.deaf ==> v.admin.mute) && (v.own.deaf ==> v.own.mute)
  }

  function FromFlags(f: Flags): Voice {
    Voice(Lane(f.mute, f.deaf), Lane(f.selfMute, f.selfDeaf), f.suppress, f.prioritySpeaker, f.recording)
  }

  function ToFlags(v: Voice): Flags {
    Flags(v.admin.mute, v.admin.deaf, v.suppress, v.own.mute, v.own.deaf, v.prioritySpeaker, v.recording)
  }

  /** The voice fields marked present in a message, and a set marked with exactly those. */
  function Presence(present: set<nat>): Voice {
    Voice(Lane(MUTE in present, DEAF in present), Lane(SELF_MUTE in present, SELF_DEAF in present),
          SUPPRESS in present, PRIORITY_SPEAKER in present, RECORDING in present)
  }

  function Mark(present: set<nat>, has: Voice): set<nat> {
    set f | f in present + VOICE && if IsFlag(f) then GetFlag(ToFlags(has), f) else f in present
  }

  // ----- applying a message -----

  /** One lane of the state and of the message that is changing it. */
  datatype LaneChange = LaneChange(state: Lane, said: Lane, has: Lane)

  /** Deafening mutes, and says so. */
  function Deafened(c: LaneChange): LaneChange {
    if !c.has.deaf then c
    else if c.said.deaf then LaneChange(Lane(true, true), c.said.(mute := true), c.has.(mute := true))
    else c.(state := c.state.(deaf := false))
  }

  /** Unmuting undeafens, and says so. */
  function Muted(c: LaneChange): LaneChange {
    if !c.has.mute then c
    else if c.said.mute then c.(state := c.state.(mute := true))
    else LaneChange(Lane(false, false), c.said.(deaf := false), c.has.(deaf := true))
  }

  function Cascaded(c: LaneChange): LaneChange {
    Muted(Deafened(c))
  }

  /** A voice state and the message that is changing it: the flags it says, and which of
      them are present in it. */
  datatype Change = Change(state: Voice, said: Voice, has: Voice)

  function SelfApplied(c: Change): Change {
    var lane := Cascaded(LaneChange(c.state.own, c.said.own, c.has.own));
    Change(c.state.(own := lane.state, recording := if c.has.recording then c.said.recording else c.state.recording),
           c.said.(own := lane.said), c.has.(own := lane.has))
  }

  function AdminApplied(c: Change): Change {
    var lane := Cascaded(LaneChange(c.state.admin, c.said.admin, c.has.admin));
    Change(c.state.(admin := lane.state,
                    suppress := if c.has.suppress then c.said.suppress else c.state.suppress,
                    prioritySpeaker := if c.has.prioritySpeaker then c.said.prioritySpeaker
                      else c.state.prioritySpeaker),
           c.said.(admin := lane.said), c.has.(admin := lane.has))
  }

  /** Entering a channel clears priority speaker and makes suppress the opposite of the
      right to speak there. */
  function Entered(v: Voice, maySpeak: bool): Voice {
    v.(prioritySpeaker := false, suppress := !maySpeak)
  }

  /** The move, and what it flipped added to the message. */
  function Moved(c: Change, maySpeak: bool): Change {
    var priority, suppress := c.state.prioritySpeaker, c.state.suppress == maySpeak;
    Change(Entered(c.state, maySpeak),
           c.said.(prioritySpeaker := c.said.prioritySpeaker && !priority,
                   suppress := if suppress then !maySpeak else c.said.suppress),
           c.has.(prioritySpeaker := c.has.prioritySpeaker || priority, suppress := c.has.suppress || suppress))
  }

  /** Resending the current recording state is no change. */
  function Incoming(m: UserState, recording: bool): Voice {
    var has := Presence(m.present);
    if m.flags.recording == recording then has.(recording := false) else has
  }

  function Applied(v: Voice, m: UserState, moved: Option<bool>): Change {
    var c := AdminApplied(SelfApplied(Change(v, FromFlags(m.flags), Incoming(m, v.recording))));
    if moved.Some? then Moved(c, moved.value) else c
  }

  datatype Outcome = Outcome(voice: Voice, echo: Option<UserState>)

  /** The applying and echoing end of the handler: `moved` holds the right to speak in the
      channel moved to, if the message moved the user. Plugin fields are never echoed. */
  function Handled(v: Voice, m: UserState, moved: Option<bool>, target: nat, actor: nat): Outcome {
    var c := Applied(v, m, moved);
    var present := Mark(m.present, c.has) - {PLUGIN_CONTEXT, PLUGIN_IDENTITY};
    Outcome(c.state,
      if present * BROADCAST == {} then None
      else Some(m.(flags := ToFlags(c.said), present := present + {SESSION, ACTOR},
                   content := m.content.(pluginContext := [], pluginIdentity := []),
                   ident := m.ident.(session := target, actor := actor))))
  }

  // ----- the echo is truthful -----

  function AssignedLane(v: Lane, said: Lane, has: Lane): Lane {
    Lane(if has.mute then said.mute else v.mute, if has.deaf then said.deaf else v.deaf)
  }

  /** What a receiver of the fields in `has` makes of the flags it knew. */
  function Assigned(v: Voice, said: Voice, has: Voice): Voice {
    Voice(AssignedLane(v.admin, said.admin, has.admin),
          AssignedLane(v.own, said.own, has.own),
          if has.suppress then said.suppress else v.suppress,
          if has.prioritySpeaker then said.prioritySpeaker else v.prioritySpeaker,
          if has.recording then said.recording else v.recording)
  }

  /** What a receiver of the whole message makes of them. */
  function Heard(v: Voice, m: UserState): Voice {
    Assigned(v, FromFlags(m.flags), Presence(m.present))
  }

  /** The rewritten message tells the cascade. */
  lemma CascadeTold(c: LaneChange)
    ensures var d := Cascaded(c); d.state == AssignedLane(c.state, d.said, d.has)
    ensures (c.state.deaf ==> c.state.mute) ==> (Cascaded(c).state.deaf ==> Cascaded(c).state.mute)
  {}

  lemma AppliedTold(c: Change)
    ensures var d := AdminApplied(SelfApplied(c)); d.state == Assigned(c.state, d.said, d.has)
  {
    CascadeTold(LaneChange(c.state.own, c.said.own, c.has.own));
    CascadeTold(LaneChange(c.state.admin, c.said.admin, c.has.admin));
    hide Cascaded, AssignedLane;
  }

  /** A move adds exactly what it flipped. */
  lemma MoveTold(v: Voice, c: Change, maySpeak: bool)
    requires c.state == Assigned(v, c.said, c.has)
    ensures var d := Moved(c, maySpeak); d.state == Assigned(v, d.said, d.has)
  {
    hide AssignedLane;
  }

  lemma ChangeTold(v: Voice, m: UserState, moved: Option<bool>)
    ensures var c := Applied(v, m, moved); c.state == Assigned(v, c.said, c.has)
  {
    var c := Change(v, FromFlags(m.flags), Incoming(m, v.recording));
    AppliedTold(c);
    var d := AdminApplied(SelfApplied(c));
    hide AdminApplied, SelfApplied, Assigned, Moved;
    if moved.Some? { MoveTold(v, d, moved.value); }
  }

  lemma MarkTells(present: set<nat>, has: Voice)
    ensures Presence(Mark(present, has) - {PLUGIN_CONTEXT, PLUGIN_IDENTITY} + {SESSION, ACTOR}) == has
    ensures (Mark(present, has) - {PLUGIN_CONTEXT, PLUGIN_IDENTITY}) * BROADCAST == {} ==> has == Quiet
  {
    var marked := Mark(present, has);
    assert (MUTE in marked <==> has.admin.mute) && (DEAF in marked <==> has.admin.deaf);
    assert (SELF_MUTE in marked <==> has.own.mute) && (SELF_DEAF in marked <==> has.own.deaf);
    assert (SUPPRESS in marked <==> has.suppress) && (PRIORITY_SPEAKER in marked <==> has.prioritySpeaker);
    assert RECORDING in marked <==> has.recording;
    hide Mark;
    var kept := marked - {PLUGIN_CONTEXT, PLUGIN_IDENTITY};
    if kept * BROADCAST == {} {
      forall f | f in VOICE ensures f !in marked {
        assert f !in kept * BROADCAST;
      }
    }
  }

  /** The broadcast message is truthful: assigning exactly its present voice fields to the
      old flags gives the new ones, cascades and channel-move changes included; and without
      a broadcast the flags have not changed. */
  lemma EchoTruthful(v: Voice, m: UserState, moved: Option<bool>, target: nat, actor: nat)
    ensures var r := Handled(v, m, moved, target, actor);
      if r.echo.Some? then Heard(v, r.echo.value) == r.voice else r.voice == v
  {
    ChangeTold(v, m, moved);
    var c := Applied(v, m, moved);
    MarkTells(m.present, c.has);
    hide Applied, Mark, Presence;
  }

  // ----- what a request does -----

  /** The request deafens, or unmutes without deafening. */
  predicate Deafens(asked: Lane, present: Lane) { present.deaf && asked.deaf }

  predicate Unmutes(asked: Lane, present: Lane) { present.mute && !asked.mute && !Deafens(asked, present) }

  /** Deafening sets both flags; otherwise a present mute is honoured, unmuting clears deafen,
      undeafening leaves mute alone, and a flag neither present nor implied stays. */
  predicate Honoured(was: Lane, asked: Lane, present: Lane, now: Lane) {
    && (Deafens(asked, present) ==> now.mute && now.deaf)
    && (!Deafens(asked, present) && present.mute ==> now.mute == asked.mute)
    && (!Deafens(asked, present) && !present.mute ==> now.mute == was.mute)
    && (Unmutes(asked, present) ==> !now.deaf)
    && (!Unmutes(asked, present) && present.deaf ==> now.deaf == asked.deaf)
    && (!Unmutes(asked, present) && !present.deaf ==> now.deaf == was.deaf)
  }

  /** The message gains a mute where it deafens and an undeafen where it unmutes. */
  predicate Implied(asked: Lane, present: Lane, has: Lane) {
    && (has.mute <==> present.mute || Deafens(asked, present))
    && (has.deaf <==> present.deaf || Unmutes(asked, present))
  }

  lemma CascadeHonours(c: LaneChange)
    ensures Honoured(c.state, c.said, c.has, Cascaded(c).state)
    ensures Implied(c.said, c.has, Cascaded(c).has)
  {}

  /** What becomes of all the flags: the two pairs are honoured as asked, recording becomes
      what is said, and so do suppress and priority speaker unless the user was moved. */
  predicate AsAsked(v: Voice, asked: Voice, present: Voice, moved: Option<bool>, now: Voice) {
    && Honoured(v.own, asked.own, present.own, now.own)
    && Honoured(v.admin, asked.admin, present.admin, now.admin)
    && now.recording == (if present.recording then asked.recording else v.recording)
    && now.suppress == (if moved.Some? then !moved.value
                        else if present.suppress then asked.suppress else v.suppress)
    && now.prioritySpeaker == (moved.None? && if present.prioritySpeaker then asked.prioritySpeaker
                                              else v.prioritySpeaker)
  }

  /** Which flags the rewritten message marks: those asked for or implied, those a move
      flipped, and recording only if it changes. */
  predicate MarkedExactly(v: Voice, asked: Voice, present: Voice, moved: Option<bool>, has: Voice) {
    && Implied(asked.own, present.own, has.own)
    && Implied(asked.admin, present.admin, has.admin)
    && (has.recording <==> present.recording && asked.recording != v.recording)
    && (has.prioritySpeaker <==> present.prioritySpeaker || (moved.Some? && v.prioritySpeaker))
    && (has.suppress <==> present.suppress || (moved.Some? && v.suppress == moved.value))
  }

  lemma AppliedHonours(c: Change)
    ensures var d := AdminApplied(SelfApplied(c));
      && AsAsked(c.state, c.said, c.has, None, d.state)
      && Implied(c.said.own, c.has.own, d.has.own) && Implied(c.said.admin, c.has.admin, d.has.admin)
      && d.has == c.has.(own := d.has.own, admin := d.has.admin)
  {
    CascadeHonours(LaneChange(c.state.own, c.said.own, c.has.own));
    CascadeHonours(LaneChange(c.state.admin, c.said.admin, c.has.admin));
    hide Cascaded, Honoured, Implied;
  }

  lemma ChangeHonours(v: Voice, m: UserState, moved: Option<bool>)
    ensures var c := Applied(v, m, moved);
      && AsAsked(v, FromFlags(m.flags), Presence(m.present), moved, c.state)
      && MarkedExactly(v, FromFlags(m.flags), Presence(m.present), moved, c.has)
  {
    var asked, present := FromFlags(m.flags), Presence(m.present);
    var c := Change(v, asked, Incoming(m, v.recording));
    AppliedHonours(c);
    assert asked.recording == m.flags.recording;
    assert c.has == present.(recording := present.recording && asked.recording != v.recording);
    hide AdminApplied, SelfApplied, Honoured, Implied, FromFlags, Presence;
  }

  /** What a message does to the voice flags, from the old flags and the message alone, for
      the server's pair and the user's own. */
  lemma RequestHonoured(v: Voice, m: UserState, moved: Option<bool>, target: nat, actor: nat)
    ensures var f, p := m.flags, m.present;
      AsAsked(v, Voice(Lane(f.mute, f.deaf), Lane(f.selfMute, f.selfDeaf), f.suppress, f.prioritySpeaker, f.recording),
              Voice(Lane(MUTE in p, DEAF in p), Lane(SELF_MUTE in p, SELF_DEAF in p), SUPPRESS in p,
                    PRIORITY_SPEAKER in p, RECORDING in p),
              moved, Handled(v, m, moved, target, actor).voice)
  {
    ChangeHonours(v, m, moved);
    hide Applied, Mark, AsAsked, MarkedExactly;
  }

  /** The message asks for something the others must hear of, or the move flipped a flag. */
  ghost predicate WorthTelling(v: Voice, m: UserState, moved: Option<bool>) {
    || m.present * (BROADCAST - {RECORDING}) != {}
    || (RECORDING in m.present && m.flags.recording != v.recording)
    || (moved.Some? && (v.prioritySpeaker || v.suppress == moved.value))
  }

  lemma MarkKeepsOthers(present: set<nat>, has: Voice)
    ensures forall f :: f !in VOICE ==> (f in Mark(present, has) <==> f in present)
  {
    forall f | f !in VOICE ensures f in Mark(present, has) <==> f in present {
      assert IsFlag(f) ==> f in VOICE;
    }
  }

  lemma ToldExactly(v: Voice, m: UserState, moved: Option<bool>, has: Voice)
    requires MarkedExactly(v, FromFlags(m.flags), Presence(m.present), moved, has)
    ensures has != Quiet || m.present * {CHANNEL_ID, TEXTURE, COMMENT} != {} <==> WorthTelling(v, m, moved)
  {
    var told, other := BROADCAST - {RECORDING}, {CHANNEL_ID, TEXTURE, COMMENT};
    assert told == other + {MUTE, DEAF, SUPPRESS, SELF_MUTE, SELF_DEAF, PRIORITY_SPEAKER};
    if m.present * other != {} {
      var f :| f in m.present * other;
      assert f in m.present * told;
    }
    if f :| f in m.present * told {
      assert f in m.present * other || f in VOICE;
    }
  }

  /** A broadcast goes out exactly if there is something to tell, marks exactly the fields
      asked for or implied, and carries everything else of the message but plugin data. */
  lemma EchoExactly(v: Voice, m: UserState, moved: Option<bool>, target: nat, actor: nat)
    ensures var echo := Handled(v, m, moved, target, actor).echo;
      && (echo.Some? <==> WorthTelling(v, m, moved))
      && (echo.Some? ==>
            var e := echo.value;
            && MarkedExactly(v, FromFlags(m.flags), Presence(m.present), moved, Presence(e.present))
            && e.present - VOICE == m.present + {SESSION, ACTOR} - VOICE - {PLUGIN_CONTEXT, PLUGIN_IDENTITY}
            && e.ident == m.ident.(session := target, actor := actor)
            && e.content == m.content.(pluginContext := [], pluginIdentity := [])
            && e.(ident := m.ident, flags := m.flags, content := m.content, present := m.present) == m)
  {
    var c := Applied(v, m, moved);
    ChangeHonours(v, m, moved);
    ToldExactly(v, m, moved, c.has);
    MarkTells(m.present, c.has);
    MarkKeepsOthers(m.present, c.has);
    hide Applied, Mark, MarkedExactly, AsAsked, WorthTelling, FromFlags;
    var kept := Mark(m.present, c.has) - {PLUGIN_CONTEXT, PLUGIN_IDENTITY};
    TellsExactly(m.present, kept, c.has);
    hide Presence;
    assert kept + {SESSION, ACTOR} - VOICE == m.present + {SESSION, ACTOR} - VOICE - {PLUGIN_CONTEXT, PLUGIN_IDENTITY};
  }

  lemma TellsExactly(present: set<nat>, kept: set<nat>, has: Voice)
    requires kept == Mark(present, has) - {PLUGIN_CONTEXT, PLUGIN_IDENTITY}
    ensures kept * BROADCAST == {} <==> has == Quiet && present * {CHANNEL_ID, TEXTURE, COMMENT} == {}
  {
    MarkTells(present, has);
    MarkKeepsOthers(present, has);
    hide Mark;
    if f :| f in kept * BROADCAST {
      assert f in VOICE || f in present * {CHANNEL_ID, TEXTURE, COMMENT};
      if f in VOICE { assert f in kept + {SESSION, ACTOR}; }
    }
    if f :| f in present * {CHANNEL_ID, TEXTURE, COMMENT} {
      assert f in kept * BROADCAST;
    }
  }

  // ----- on the wire -----

  /** A message as Unmarshal leaves it: a voice flag that is set is present. */
  ghost predicate FromWire(m: UserState) {
    Covered(FromFlags(m.flags), Presence(m.present))
  }

  predicate CoveredLane(said: Lane, has: Lane) {
    (said.mute ==> has.mute) && (said.deaf ==> has.deaf)
  }

  /** Every flag said is present. */
  predicate Covered(said: Voice, has: Voice) {
    CoveredLane(said.admin, has.admin) && CoveredLane(said.own, has.own)
    && (said.suppress ==> has.suppress) && (said.prioritySpeaker ==> has.prioritySpeaker)
      && (said.recording ==> has.recording)
  }

  /** Apart from a recording flag that repeats the state, every flag said stays present. */
  lemma CoverKept(v: Voice, m: UserState, moved: Option<bool>)
    requires FromWire(m)
    ensures var c := Applied(v, m, moved);
      Covered(c.said.(recording := false), c.has) && (c.said.recording && !c.has.recording ==> c.state.recording)
  {
    var asked, present := FromFlags(m.flags), Presence(m.present);
    var c := Change(v, asked, Incoming(m, v.recording));
    CoverApplied(c);
    assert asked.recording == m.flags.recording;
    assert c.has == present.(recording := present.recording && asked.recording != v.recording);
    hide AdminApplied, SelfApplied, CoveredLane, FromFlags, Presence;
  }

  lemma CoverApplied(c: Change)
    requires Covered(c.said.(recording := false), c.has)
    ensures var d := AdminApplied(SelfApplied(c));
      && Covered(d.said.(recording := false), d.has) && d.said.recording == c.said.recording
      && d.has.recording == c.has.recording
      && d.state.recording == (if c.has.recording then c.said.recording else c.state.recording)
  {
    CascadeCovered(LaneChange(c.state.own, c.said.own, c.has.own));
    CascadeCovered(LaneChange(c.state.admin, c.said.admin, c.has.admin));
    hide Cascaded, CoveredLane;
  }

  lemma CascadeCovered(c: LaneChange)
    requires CoveredLane(c.said, c.has)
    ensures CoveredLane(Cascaded(c).said, Cascaded(c).has)
  {}

  lemma SentFlag(m: UserState, f: nat)
    requires IsFlag(f)
    ensures f in Sent(m) <==> f in m.present || GetFlag(m.flags, f)
  {
    hide GetIdent, GetContent, GetFlag;
  }

  lemma SentFlags(m: UserState)
    ensures Presence(Sent(m)) == Either(Presence(m.present), FromFlags(m.flags))
  {
    hide Sent;
    SentFlag(m, MUTE);
    SentFlag(m, DEAF);
    SentFlag(m, SUPPRESS);
    SentFlag(m, SELF_MUTE);
    SentFlag(m, SELF_DEAF);
    SentFlag(m, PRIORITY_SPEAKER);
    SentFlag(m, RECORDING);
  }

  function EitherLane(a: Lane, b: Lane): Lane {
    Lane(a.mute || b.mute, a.deaf || b.deaf)
  }

  function Either(a: Voice, b: Voice): Voice {
    Voice(EitherLane(a.admin, b.admin), EitherLane(a.own, b.own), a.suppress || b.suppress,
          a.prioritySpeaker || b.prioritySpeaker, a.recording || b.recording)
  }

  /** Marking a flag that repeats the state present as well changes nothing. */
  lemma RepeatingIsHarmless(v: Voice, said: Voice, has: Voice)
    requires Covered(said.(recording := false), has)
      && (said.recording && !has.recording ==> Assigned(v, said, has).recording)
    ensures Assigned(v, said, Either(has, said)) == Assigned(v, said, has)
  {
    assert EitherLane(has.admin, said.admin) == has.admin;
    assert EitherLane(has.own, said.own) == has.own;
  }

  /** And truthful as other clients receive it: after encoding and decoding, where every flag
      that is set counts as present, the message still turns the old flags into the new. */
  lemma EchoTruthfulOnWire(v: Voice, m: UserState, moved: Option<bool>, target: nat, actor: nat)
    requires FromWire(m)
    requires var r := Handled(v, m, moved, target, actor); r.echo.Some? && Valid(r.echo.value)
    ensures var r := Handled(v, m, moved, target, actor);
      var received := Decode(Fresh, EncodeRecords(Records(r.echo.value)));
      received.Ok? && Heard(v, received.value) == r.voice
  {
    hide Decode, EncodeRecords, Records, Sent, Valid, Assigned, ArrivingAll;
    var r := Handled(v, m, moved, target, actor);
    var e := r.echo.value;
    UserStateRoundTrip(e);
    EchoTruthful(v, m, moved, target, actor);
    CoverKept(v, m, moved);
    SentFlags(e);
    var c := Applied(v, m, moved);
    MarkTells(m.present, c.has);
    hide Applied, Mark, Presence, Covered;
    ChangeTold(v, m, moved);
    RepeatingIsHarmless(v, c.said, c.has);
  }

  // ----- over runs -----

  datatype Event =
    | Message(m: UserState, moved: Option<bool>, target: nat, actor: nat)
    | Resync(maySpeak: bool)

  /** Everything that happens to one user's voice flags. */
  function Run(events: seq<Event>): Voice
    decreases |events|
  {
    if events == [] then Quiet
    else
      var v := Run(events[..|events| - 1]);
      match events[|events| - 1]
      case Message(m, moved, target, actor) => Handled(v, m, moved, target, actor).voice
      case Resync(maySpeak) => v.(suppress := !maySpeak)
  }

  lemma CascadesSane(c: Change)
    requires Sane(c.state)
    ensures Sane(AdminApplied(SelfApplied(c)).state)
  {
    CascadeTold(LaneChange(c.state.own, c.said.own, c.has.own));
    CascadeTold(LaneChange(c.state.admin, c.said.admin, c.has.admin));
    hide Cascaded;
  }

  lemma AppliedSane(v: Voice, m: UserState, moved: Option<bool>)
    requires Sane(v)
    ensures Sane(Applied(v, m, moved).state)
  {
    hide AdminApplied, SelfApplied, Incoming, FromFlags;
    CascadesSane(Change(v, FromFlags(m.flags), Incoming(m, v.recording)));
  }

  /** Deaf implies mute, for both pairs of flags, in every reachable voice state. */
  lemma {:induction false} AlwaysSane(events: seq<Event>)
    ensures Sane(Run(events))
    decreases |events|
  {
    if events != [] {
      var v := Run(events[..|events| - 1]);
      AlwaysSane(events[..|events| - 1]);
      hide Applied, Mark;
      if events[|events| - 1].Message? {
        AppliedSane(v, events[|events| - 1].m, events[|events| - 1].moved);
      }
    }
  }

  // ----- the flags as they are changed in place -----

  class UserRecord {
    var voice: Voice
  }

  class MessageRecord {
    var said: Voice
    var has: Voice
  }

  /** The evaluation order both helpers share: deafen first, then mute. */
  method Cascade(c: LaneChange) returns (d: LaneChange)
    ensures d == Cascaded(c)
    ensures Honoured(c.state, c.said, c.has, d.state) && Implied(c.said, c.has, d.has)
  {
    var state, said, has := c.state, c.said, c.has;
    if has.deaf {
      state := state.(deaf := said.deaf);
      if state.deaf {
        state := state.(mute := true);
        said := said.(mute := true);
        has := has.(mute := true);
      }
    }
    if has.mute {
      state := state.(mute := said.mute);
      if !state.mute {
        state := state.(deaf := false);
        said := said.(deaf := false);
        has := has.(deaf := true);
      }
    }
    d := LaneChange(state, said, has);
  }

  method ApplySelfVoiceState(u: UserRecord, us: MessageRecord)
    modifies u, us
    ensures Change(u.voice, us.said, us.has) == SelfApplied(old(Change(u.voice, us.said, us.has)))
    ensures Honoured(old(u.voice.own), old(us.said.own), old(us.has.own), u.voice.own)
  {
    hide Cascaded, Honoured, Implied;
    var lane := Cascade(LaneChange(u.voice.own, us.said.own, us.has.own));
    u.voice := u.voice.(own := lane.state);
    us.said := us.said.(own := lane.said);
    us.has := us.has.(own := lane.has);
    if us.has.recording { u.voice := u.voice.(recording := us.said.recording); }
  }

  method ApplyAdminVoiceState(u: UserRecord, us: MessageRecord)
    modifies u, us
    ensures Change(u.voice, us.said, us.has) == AdminApplied(old(Change(u.voice, us.said, us.has)))
    ensures Honoured(old(u.voice.admin), old(us.said.admin), old(us.has.admin), u.voice.admin)
  {
    hide Cascaded, Honoured, Implied;
    var lane := Cascade(LaneChange(u.voice.admin, us.said.admin, us.has.admin));
    u.voice := u.voice.(admin := lane.state);
    us.said := us.said.(admin := lane.said);
    us.has := us.has.(admin := lane.has);
    if us.has.suppress { u.voice := u.voice.(suppress := us.said.suppress); }
    if us.has.prioritySpeaker { u.voice := u.voice.(prioritySpeaker := us.said.prioritySpeaker); }
  }

  method ApplySuppressFromSpeak(u: UserRecord, maySpeak: bool) returns (changed: bool)
    modifies u
    ensures u.voice == old(u.voice).(suppress := !maySpeak) && changed == (old(u.voice).suppress != u.voice.suppress)
  {
    if maySpeak == u.voice.suppress {
      u.voice := u.voice.(suppress := !maySpeak);
      return true;
    }
    return false;
  }

  method ApplyChannelEnterEffects(u: UserRecord, maySpeak: bool) returns (priorityChanged: bool, suppressChanged: bool)
    modifies u
    ensures u.voice == Entered(old(u.voice), maySpeak)
    ensures priorityChanged == (old(u.voice).prioritySpeaker != u.voice.prioritySpeaker)
    ensures suppressChanged == (old(u.voice).suppress != u.voice.suppress)
  {
    priorityChanged := false;
    if u.voice.prioritySpeaker {
      u.voice := u.voice.(prioritySpeaker := false);
      priorityChanged := true;
    }
    suppressChanged := ApplySuppressFromSpeak(u, maySpeak);
  }

  /** The callback under the user lock and the additions to the message after it. */
  method ApplyAndEcho(u: UserRecord, us: MessageRecord, moved: Option<bool>)
    modifies u, us
    ensures var c := AdminApplied(SelfApplied(old(Change(u.voice, us.said, us.has))));
      Change(u.voice, us.said, us.has) == if moved.Some? then Moved(c, moved.value) else c
    ensures u.voice == Assigned(old(u.voice), us.said, us.has)
    ensures old(Sane(u.voice)) ==> Sane(u.voice)
  {
    ghost var before := Change(u.voice, us.said, us.has);
    EchoTold(before, moved);
    hide Cascaded, Assigned, SelfApplied, AdminApplied, Honoured, Sane;
    ApplySelfVoiceState(u, us);
    ApplyAdminVoiceState(u, us);
    if moved.Some? {
      var priority, suppress := ApplyChannelEnterEffects(u, moved.value);
      if priority {
        us.said := us.said.(prioritySpeaker := false);
        us.has := us.has.(prioritySpeaker := true);
      }
      if suppress {
        us.said := us.said.(suppress := u.voice.suppress);
        us.has := us.has.(suppress := true);
      }
    }
  }

  /** The whole change is told by the rewritten message and stays sane. */
  lemma EchoTold(before: Change, moved: Option<bool>)
    ensures var c := AdminApplied(SelfApplied(before));
      var d := if moved.Some? then Moved(c, moved.value) else c;
      && d.state == Assigned(before.state, d.said, d.has) && (Sane(before.state) ==> Sane(d.state))
  {
    AppliedTold(before);
    if Sane(before.state) { CascadesSane(before); }
    hide AdminApplied, SelfApplied, Assigned;
    if moved.Some? { MoveTold(before.state, AdminApplied(SelfApplied(before)), moved.value); }
  }
}
