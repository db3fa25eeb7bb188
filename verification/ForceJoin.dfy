/**
 The forced-membership gate of telkap/middlewares.py. Its two fields, the
 verified set and the signature of the channel list they were verified against,
 are read and written around `await` points. `ForceJoinMiddleware.Call` is one
 event handled without interruption; `Step` cuts the same code at its awaits so
 that events and edits of the channel list can interleave.
 */
module ForceJoin {
  import opened Options

  type User = int

  datatype Channel = Channel(id: int, ref: string)

  type Channels = seq<Channel>

  /** The signature of a list names its channels by id only. */
  function Ids(channels: Channels): seq<int> {
    seq(|channels|, i requires 0 <= i < |channels| => channels[i].id)
  }

  datatype Gate = Gate(verified: set<User>, signature: seq<int>)

  datatype Event = Event(user: Option<User>, admin: bool, hasBot: bool)

  datatype Outcome = Pass | Stop(missing: Channels)

  /** What Telegram said about one membership. */
  datatype Reply = Status(status: string) | ApiError

  const MEMBER_STATUSES := {"creator", "administrator", "member", "restricted"}

  /** A channel that cannot be asked about must not lock the user out. */
  predicate IsMember(reply: Reply) {
    reply.ApiError? || reply.status in MEMBER_STATUSES
  }

  // --------------------------------------------------- the code between two awaits

  /** A changed list voids what was verified against the old one. */
  function Renew(gate: Gate, channels: Channels): Gate {
    if Ids(channels) != gate.signature then Gate({}, Ids(channels)) else gate
  }

  function Admit(gate: Gate, user: User): Gate {
    gate.(verified := gate.verified + {user})
  }

  predicate PassesUnchecked(gate: Gate, event: Event, channels: Channels)
    requires event.user.Some?
  {
    channels == [] || event.admin || event.user.value in gate.verified || !event.hasBot
  }

  function Missing(channels: Channels, replies: seq<Reply>): Channels
    requires |channels| == |replies|
  {
    if channels == [] then []
    else
      var rest := Missing(channels[..|channels| - 1], replies[..|replies| - 1]);
      if IsMember(replies[|replies| - 1]) then rest else rest + [channels[|channels| - 1]]
  }

  /** A whole event against a list that nobody else touches meanwhile. */
  function Handle(gate: Gate, event: Event, channels: Channels, replies: seq<Reply>): (Gate, Outcome)
    requires |replies| == |channels|
  {
    if event.user.None? then (gate, Pass)
    else
      var renewed := Renew(gate, channels);
      if PassesUnchecked(renewed, event, channels) then (renewed, Pass)
      else
        var missing := Missing(channels, replies);
        if missing == [] then (Admit(renewed, event.user.value), Pass) else (renewed, Stop(missing))
  }

  class ForceJoinMiddleware {
    var verified: set<User>
    var signature: seq<int>

    function State(): Gate
      reads this
    {
      Gate(verified, signature)
    }

    constructor ()
      ensures State() == Gate({}, [])
    {
      verified, signature := {}, [];
    }

    /** One event; `replies[i]` is what the bot is told about `channels[i]`. */
    method Call(event: Event, channels: Channels, replies: seq<Reply>) returns (outcome: Outcome)
      requires |replies| == |channels|
      modifies this
      ensures (State(), outcome) == Handle(old(State()), event, channels, replies)
    {
      if event.user.None? {
        return Pass;
      }
      var user := event.user.value;
      if Ids(channels) != signature {
        signature := Ids(channels);
        verified := {};
      }
      if channels == [] || event.admin {
        return Pass;
      }
      if user in verified {
        return Pass;
      }
      if !event.hasBot {
        return Pass;
      }
      var missing: Channels := [];
      for i := 0 to |channels|
        invariant missing == Missing(channels[..i], replies[..i])
        invariant State() == Renew(old(State()), channels)
      {
        MissingNext(channels, replies, i);
        if !IsMember(replies[i]) {
          missing := missing + [channels[i]];
        }
      }
      assert channels[..|channels|] == channels && replies[..|channels|] == replies;
      if missing == [] {
        verified := verified + {user};
        return Pass;
      }
      return Stop(missing);
    }
  }

  lemma MissingNext(channels: Channels, replies: seq<Reply>, k: nat)
    requires |channels| == |replies| && k < |channels|
    ensures Missing(channels[..k + 1], replies[..k + 1])
         == Missing(channels[..k], replies[..k]) + if IsMember(replies[k]) then [] else [channels[k]]
  {
    assert channels[..k + 1][..k] == channels[..k] && replies[..k + 1][..k] == replies[..k];
  }

  /** A stopped user is told exactly the channels that answered no. */
  lemma {:induction false} MissingExactly(channels: Channels, replies: seq<Reply>)
    requires |channels| == |replies|
    ensures Missing(channels, replies) == [] <==> forall i :: 0 <= i < |replies| ==> IsMember(replies[i])
    ensures forall c :: c in Missing(channels, replies) <==>
              exists i :: 0 <= i < |channels| && channels[i] == c && !IsMember(replies[i])
  {
    if channels == [] {
    } else {
      var n := |channels| - 1;
      MissingExactly(channels[..n], replies[..n]);
      assert forall i :: 0 <= i < n ==> channels[..n][i] == channels[i] && replies[..n][i] == replies[i];
    }
  }

  /** An answer that counts as no: a status, and none of four. */
  ghost predicate SaysNo(reply: Reply) {
    reply.Status? && reply.status != "creator" && reply.status != "administrator" && reply.status != "member" && reply.status != "restricted"
  }

  lemma NoIsNotMember(reply: Reply)
    ensures SaysNo(reply) <==> !IsMember(reply)
  {
  }

  lemma SomeSaysNo(channels: Channels, replies: seq<Reply>)
    requires |channels| == |replies|
    ensures Missing(channels, replies) != [] <==> exists i :: 0 <= i < |replies| && SaysNo(replies[i])
  {
    MissingExactly(channels, replies);
    forall i | 0 <= i < |replies| ensures SaysNo(replies[i]) <==> !IsMember(replies[i]) {
      NoIsNotMember(replies[i]);
    }
  }

  /**
   Who is stopped by a whole event: exactly a known user, not an admin, whom the
   bot can check, who is not verified for this very list, and for whom some
   channel answers with a status other than the four. An error is no such answer.
   */
  lemma StoppedExactlyWhen(gate: Gate, event: Event, channels: Channels, replies: seq<Reply>)
    requires |replies| == |channels|
    ensures Handle(gate, event, channels, replies).1.Stop? <==>
              && event.user.Some? && !event.admin && event.hasBot && channels != []
              && !(Ids(channels) == gate.signature && event.user.value in gate.verified)
              && exists i :: 0 <= i < |replies| && SaysNo(replies[i])
    ensures Handle(gate, event, channels, replies).1.Stop? ==>
              forall c :: c in Handle(gate, event, channels, replies).1.missing <==>
                exists i :: 0 <= i < |channels| && channels[i] == c && SaysNo(replies[i])
  {
    SomeSaysNo(channels, replies);
    MissingExactly(channels, replies);
    forall i | 0 <= i < |replies| ensures SaysNo(replies[i]) <==> !IsMember(replies[i]) {
      NoIsNotMember(replies[i]);
    }
  }

  /** Who is verified after it: nobody from another list, and this user if every channel was asked and none said no. */
  lemma VerifiedExactlyWhen(gate: Gate, event: Event, channels: Channels, replies: seq<Reply>, user: User)
    requires |replies| == |channels|
    ensures var gate' := Handle(gate, event, channels, replies).0;
            && (event.user.None? ==> gate' == gate)
            && (event.user.Some? ==> gate'.signature == Ids(channels))
            && (event.user.Some? ==>
                  (user in gate'.verified <==>
                     || (Ids(channels) == gate.signature && user in gate.verified)
                     || (event.user == Some(user) && !event.admin && event.hasBot && channels != []
                         && forall i :: 0 <= i < |replies| ==> !SaysNo(replies[i]))))
  {
    SomeSaysNo(channels, replies);
  }

  // ------------------------------------------------------------ interleaved events

  /** How far an event has come; each constructor is one of its awaits. */
  datatype Stage =
    | Listing(event: Event)                     // awaiting active_channels()
    | Listed(event: Event, channels: Channels)  // the list is read, the event not yet resumed
    | Checking(event: Event, channels: Channels, asked: nat, missing: Channels) // awaiting _is_member
    | Done(outcome: Outcome)

  /** What has happened, kept as evidence; nothing the program decides on. */
  datatype Mark =
    | Reading(id: nat, user: User, channels: Channels)             // the event read this list
    | Check(id: nat, user: User, channel: Channel, member: bool)   // and got this answer

  datatype World = World(
    active: Channels,         // the list in the database
    history: set<Channels>,   // every list it has held
    gate: Gate,
    events: map<nat, Stage>,
    log: set<Mark>)

  datatype Action =
    | Edit(channels: Channels)
    | Begin(id: nat, event: Event)
    | Fetch(id: nat)
    | Resume(id: nat)
    | Answer(id: nat, reply: Reply)

  function Start(active: Channels): World {
    World(active, {active}, Gate({}, []), map[], {})
  }

  /**
   One atomic step. With `guarded` the event compares its own list with the
   signature once more before it adds the user; the code as it stands does not.
   */
  function Step(w: World, action: Action, guarded: bool): World {
    match action
    case Edit(channels) => w.(active := channels, history := w.history + {channels})
    case Begin(id, event) =>
      if id in w.events then w
      else if event.user.None? then w.(events := w.events[id := Done(Pass)])
      else w.(events := w.events[id := Listing(event)])
    case Fetch(id) =>
      if id !in w.events || !w.events[id].Listing? || w.events[id].event.user.None? then w
      else
        var event := w.events[id].event;
        w.(events := w.events[id := Listed(event, w.active)], log := w.log + {Reading(id, event.user.value, w.active)})
    case Resume(id) =>
      if id !in w.events || !w.events[id].Listed? || w.events[id].event.user.None? then w
      else
        var Listed(event, channels) := w.events[id];
        var gate := Renew(w.gate, channels);
        var next := if PassesUnchecked(gate, event, channels) then Done(Pass) else Checking(event, channels, 0, []);
        w.(gate := gate, events := w.events[id := next])
    case Answer(id, reply) =>
      if id !in w.events || !w.events[id].Checking? then w else AnswerStep(w, id, reply, guarded)
  }

  /** A membership answer; the last one also ends the event, without an await between. */
  function AnswerStep(w: World, id: nat, reply: Reply, guarded: bool): World
    requires id in w.events && w.events[id].Checking?
  {
    var Checking(event, channels, asked, missing) := w.events[id];
    if event.user.None? || asked >= |channels| then w
    else
      var user := event.user.value;
      var log := w.log + {Check(id, user, channels[asked], IsMember(reply))};
      var missing' := if IsMember(reply) then missing else missing + [channels[asked]];
      if asked + 1 < |channels| then
        w.(log := log, events := w.events[id := Checking(event, channels, asked + 1, missing')])
      else if missing' != [] then
        w.(log := log, events := w.events[id := Done(Stop(missing'))])
      else
        w.(log := log, events := w.events[id := Done(Pass)],
           gate := if guarded && w.gate.signature != Ids(channels) then w.gate else Admit(w.gate, user))
  }

  function Run(w: World, actions: seq<Action>, guarded: bool): World
    decreases |actions|
  {
    if actions == [] then w else Run(Step(w, actions[0], guarded), actions[1..], guarded)
  }

  lemma RunFrom(w: World, actions: seq<Action>, k: nat, guarded: bool)
    requires k < |actions|
    ensures Run(w, actions[k..], guarded) == Run(Step(w, actions[k], guarded), actions[k + 1..], guarded)
  {
  }

  // ---------------------------------------------------------------------- evidence

  /** Event `id` of this user read this list and every check of it said yes. */
  ghost predicate VettedBy(log: set<Mark>, id: nat, user: User, channels: Channels) {
    && Reading(id, user, channels) in log
    && forall c :: c in channels ==> Check(id, user, c, true) in log
  }

  ghost predicate Vetted(w: World, user: User, channels: Channels) {
    channels in w.history && exists id :: VettedBy(w.log, id, user, channels)
  }

  /** The weak form: vetted against some list that was active when it was read. */
  ghost predicate Weak(w: World) {
    forall user :: user in w.gate.verified ==> exists channels :: Vetted(w, user, channels)
  }

  ghost predicate VettedUnder(w: World, user: User, signature: seq<int>) {
    exists channels :: Ids(channels) == signature && Vetted(w, user, channels)
  }

  /** The strong form: vetted against a list that the current signature names. */
  ghost predicate Strong(w: World) {
    forall user :: user in w.gate.verified ==> VettedUnder(w, user, w.gate.signature)
  }

  /** What is known of an event half way through. */
  ghost predicate StageOk(w: World, id: nat, stage: Stage) {
    match stage
    case Listing(event) => event.user.Some?
    case Listed(event, channels) =>
      event.user.Some? && channels in w.history && Reading(id, event.user.value, channels) in w.log
    case Checking(event, channels, asked, missing) =>
      && event.user.Some? && channels in w.history && Reading(id, event.user.value, channels) in w.log
      && asked < |channels|
      && (missing == [] ==> forall i :: 0 <= i < asked ==> Check(id, event.user.value, channels[i], true) in w.log)
      && !event.admin && event.hasBot
      && (forall c :: c in missing ==> c in channels && Check(id, event.user.value, c, false) in w.log)
    case Done(_) => true
  }

  /** An event reads one list, and not before its first await is over. */
  ghost predicate ReadsOnce(w: World) {
    && (forall id, user, channels :: Reading(id, user, channels) in w.log ==> id in w.events && !w.events[id].Listing?)
    && (forall id, user, channels, user', channels' ::
          Reading(id, user, channels) in w.log && Reading(id, user', channels') in w.log ==> user == user' && channels == channels')
  }

  ghost predicate Inv(w: World) {
    && w.active in w.history
    && ReadsOnce(w)
    && forall id :: id in w.events ==> StageOk(w, id, w.events[id])
  }

  lemma StageOkLater(w: World, w': World, id: nat, stage: Stage)
    requires w.history <= w'.history && w.log <= w'.log && StageOk(w, id, stage)
    ensures StageOk(w', id, stage)
  {
  }

  lemma VettedLater(w: World, w': World, user: User, channels: Channels)
    requires w.history <= w'.history && w.log <= w'.log && Vetted(w, user, channels)
    ensures Vetted(w', user, channels)
  {
    var id :| VettedBy(w.log, id, user, channels);
    assert VettedBy(w'.log, id, user, channels);
  }

  /** This step is the last of an event's answers, and all of them were yes. */
  ghost predicate Admits(w: World, action: Action) {
    && action.Answer? && action.id in w.events && w.events[action.id].Checking?
    && var Checking(event, channels, asked, missing) := w.events[action.id];
       event.user.Some? && asked + 1 == |channels| && missing == [] && IsMember(action.reply)
  }

  /** Such an event has vetted its user against the list it read. */
  lemma LastYesVets(w: World, action: Action, guarded: bool)
    requires Inv(w) && Admits(w, action)
    ensures var stage := w.events[action.id];
            Vetted(Step(w, action, guarded), stage.event.user.value, stage.channels)
  {
    var w' := Step(w, action, guarded);
    var Checking(event, channels, asked, missing) := w.events[action.id];
    var user := event.user.value;
    assert StageOk(w, action.id, w.events[action.id]);
    forall c | c in channels ensures Check(action.id, user, c, true) in w'.log {
      var i :| 0 <= i < |channels| && channels[i] == c;
      if i == asked {
        assert Check(action.id, user, channels[asked], IsMember(action.reply)) in w'.log;
      }
    }
    assert VettedBy(w'.log, action.id, user, channels);
  }

  /** The admitted user, and no other, is the one whose last check just said yes. */
  lemma AdmittedIsVetted(w: World, id: nat, reply: Reply, guarded: bool)
    requires Inv(w) && id in w.events && w.events[id].Checking?
    ensures var w' := AnswerStep(w, id, reply, guarded);
            var Checking(event, channels, asked, missing) := w.events[id];
            && (w'.gate != w.gate ==>
                  && w'.gate == Admit(w.gate, event.user.value)
                  && Vetted(w', event.user.value, channels)
                  && (guarded ==> w.gate.signature == Ids(channels)))
  {
    if AnswerStep(w, id, reply, guarded).gate != w.gate {
      LastYesVets(w, Answer(id, reply), guarded);
    }
  }

  lemma StepGrows(w: World, action: Action, guarded: bool)
    ensures var w' := Step(w, action, guarded); w.history <= w'.history && w.log <= w'.log
  {
  }

  lemma StepReadsOnce(w: World, action: Action, guarded: bool)
    requires ReadsOnce(w)
    ensures ReadsOnce(Step(w, action, guarded))
  {
    var w' := Step(w, action, guarded);
    forall id, user, channels | Reading(id, user, channels) in w'.log
      ensures id in w'.events && !w'.events[id].Listing?
      ensures Reading(id, user, channels) in w.log || (action == Fetch(id) && id in w.events && w.events[id].Listing?)
    {
    }
  }

  lemma StepKeepsInv(w: World, action: Action, guarded: bool)
    requires Inv(w)
    ensures Inv(Step(w, action, guarded))
  {
    var w' := Step(w, action, guarded);
    StepGrows(w, action, guarded);
    StepReadsOnce(w, action, guarded);
    forall id | id in w'.events ensures StageOk(w', id, w'.events[id]) {
      if id in w.events {
        assert StageOk(w, id, w.events[id]);
        StageOkLater(w, w', id, w.events[id]);
      }
    }
  }

  lemma StepKeepsWeak(w: World, action: Action, guarded: bool)
    requires Inv(w) && Weak(w)
    ensures Weak(Step(w, action, guarded))
  {
    var w' := Step(w, action, guarded);
    StepGrows(w, action, guarded);
    if action.Answer? && action.id in w.events && w.events[action.id].Checking? {
      AdmittedIsVetted(w, action.id, action.reply, guarded);
    }
    forall user | user in w'.gate.verified ensures exists channels :: Vetted(w', user, channels) {
      if user in w.gate.verified {
        var channels :| Vetted(w, user, channels);
        VettedLater(w, w', user, channels);
      }
    }
  }

  /** Every interleaving whatever: a verified user passed every check of a list that was active when read. */
  lemma {:induction false} WeakInEveryRun(w: World, actions: seq<Action>, guarded: bool)
    requires Inv(w) && Weak(w)
    ensures Inv(Run(w, actions, guarded)) && Weak(Run(w, actions, guarded))
    decreases |actions|
  {
    if actions == [] {
    } else {
      StepKeepsInv(w, actions[0], guarded);
      StepKeepsWeak(w, actions[0], guarded);
      WeakInEveryRun(Step(w, actions[0], guarded), actions[1..], guarded);
    }
  }

  lemma WeakFromTheStart(active: Channels, actions: seq<Action>)
    ensures Weak(Run(Start(active), actions, false))
  {
    WeakInEveryRun(Start(active), actions, false);
  }

  // ------------------------------------------------------- where the strong form ends

  /**
   The last answer of an event with another list vets its user under no
   signature that the user was not vetted under before.
   */
  lemma VettedBefore(w: World, action: Action, signature: seq<int>)
    requires Inv(w) && Admits(w, action) && Ids(w.events[action.id].channels) != signature
    requires VettedUnder(Step(w, action, false), w.events[action.id].event.user.value, signature)
    ensures VettedUnder(w, w.events[action.id].event.user.value, signature)
  {
    var w', user := Step(w, action, false), w.events[action.id].event.user.value;
    var channels :| Ids(channels) == signature && Vetted(w', user, channels);
    var id :| VettedBy(w'.log, id, user, channels);
    assert StageOk(w, action.id, w.events[action.id]);
    assert Reading(id, user, channels) in w.log && id != action.id;
    assert VettedBy(w.log, id, user, channels);
  }

  /**
   Exactly when the code's unguarded step keeps the strong form: unless it
   admits a user whose list is no longer the one the gate names, and whom no
   other event had vetted for that one. The step that breaks it is then the add
   itself.
   */
  lemma KeepsStrongExactlyWhen(w: World, action: Action)
    requires Inv(w) && Strong(w)
    ensures Strong(Step(w, action, false)) <==>
              !Admits(w, action)
              || Ids(w.events[action.id].channels) == w.gate.signature
              || VettedUnder(w, w.events[action.id].event.user.value, w.gate.signature)
  {
    var w' := Step(w, action, false);
    StepGrows(w, action, false);
    if Admits(w, action) {
      var Checking(event, channels, asked, missing) := w.events[action.id];
      AdmittedIsVetted(w, action.id, action.reply, false);
      assert w'.gate == Admit(w.gate, event.user.value);
      if Ids(channels) == w.gate.signature {
        LastYesVets(w, action, false);
        VerifiedLater(w, w');
      } else if VettedUnder(w, event.user.value, w.gate.signature) {
        VettedUnderLater(w, w', event.user.value, w.gate.signature);
        VerifiedLater(w, w');
      } else if Strong(w') {
        assert VettedUnder(w', event.user.value, w.gate.signature);
        VettedBefore(w, action, w.gate.signature);
      }
    } else {
      assert w'.gate == w.gate || w'.gate.verified == {};
      VerifiedLater(w, w');
    }
  }

  lemma VettedUnderLater(w: World, w': World, user: User, signature: seq<int>)
    requires w.history <= w'.history && w.log <= w'.log && VettedUnder(w, user, signature)
    ensures VettedUnder(w', user, signature)
  {
    var channels :| Ids(channels) == signature && Vetted(w, user, channels);
    VettedLater(w, w', user, channels);
  }

  lemma VerifiedLater(w: World, w': World)
    requires w.history <= w'.history && w.log <= w'.log && Strong(w)
    ensures forall user :: user in w.gate.verified ==> VettedUnder(w', user, w.gate.signature)
  {
    forall user | user in w.gate.verified ensures VettedUnder(w', user, w.gate.signature) {
      VettedUnderLater(w, w', user, w.gate.signature);
    }
  }

  /** Comparing the captured list once more before the add makes every step keep it. */
  lemma GuardedStepKeepsStrong(w: World, action: Action)
    requires Inv(w) && Strong(w)
    ensures Strong(Step(w, action, true))
  {
    var w' := Step(w, action, true);
    StepGrows(w, action, true);
    VerifiedLater(w, w');
    if action.Answer? && action.id in w.events && w.events[action.id].Checking? {
      AdmittedIsVetted(w, action.id, action.reply, true);
    }
  }

  lemma {:induction false} StrongInEveryGuardedRun(w: World, actions: seq<Action>)
    requires Inv(w) && Strong(w)
    ensures Inv(Run(w, actions, true)) && Strong(Run(w, actions, true))
    decreases |actions|
  {
    if actions == [] {
    } else {
      StepKeepsInv(w, actions[0], true);
      GuardedStepKeepsStrong(w, actions[0]);
      StrongInEveryGuardedRun(Step(w, actions[0], true), actions[1..]);
    }
  }

  /**
   What the strong form is for: while it holds, whoever is let past the gate is
   an admin, has no channel to join, cannot be checked at all, or has passed
   every check of a list with the ids of the one their event read.
   */
  lemma PassIsEarned(w: World, action: Action, id: nat, guarded: bool)
    requires Inv(w) && Strong(w)
    requires id in w.events && (w.events[id].Listed? || w.events[id].Checking?)
    requires id in Step(w, action, guarded).events && Step(w, action, guarded).events[id] == Done(Pass)
    ensures var stage := w.events[id];
            || stage.event.admin || stage.channels == [] || !stage.event.hasBot
            || VettedUnder(Step(w, action, guarded), stage.event.user.value, Ids(stage.channels))
  {
    var w' := Step(w, action, guarded);
    var stage := w.events[id];
    StepGrows(w, action, guarded);
    if stage.Checking? {
      LastYesVets(w, action, guarded);
    } else if stage.event.user.value in w.gate.verified && Ids(stage.channels) == w.gate.signature {
      VettedUnderLater(w, w', stage.event.user.value, w.gate.signature);
    }
  }

  /** And whoever is stopped is no admin, and of each channel they are told of they were asked and it said no. */
  lemma StopIsEarned(w: World, action: Action, id: nat, guarded: bool)
    requires Inv(w) && id in w.events && !w.events[id].Done?
    requires id in Step(w, action, guarded).events
    requires var stage := Step(w, action, guarded).events[id]; stage.Done? && stage.outcome.Stop?
    ensures w.events[id].Checking?
    ensures var Checking(event, channels, _, _) := w.events[id];
            var w' := Step(w, action, guarded);
            && event.user.Some? && !event.admin && event.hasBot && w'.events[id].outcome.missing != []
            && forall c :: c in w'.events[id].outcome.missing ==> c in channels && Check(id, event.user.value, c, false) in w'.log
  {
    assert StageOk(w, id, w.events[id]);
  }

  // ----------------------------------------------------------- events without overlap

  function Answers(id: nat, replies: seq<Reply>): seq<Action> {
    seq(|replies|, i requires 0 <= i < |replies| => Answer(id, replies[i]))
  }

  /** One event from its beginning to its end with nothing in between. */
  function WholeEvent(id: nat, event: Event, replies: seq<Reply>): seq<Action> {
    [Begin(id, event), Fetch(id), Resume(id)] + Answers(id, replies)
  }

  lemma AnswersNext(id: nat, replies: seq<Reply>, k: nat)
    requires k < |replies|
    ensures var actions := Answers(id, replies[k..]);
            actions != [] && actions[0] == Answer(id, replies[k]) && actions[1..] == Answers(id, replies[k + 1..])
  {
  }

  /** One answer takes the event one channel on, or to its end. */
  lemma AnswerAdvances(w: World, id: nat, replies: seq<Reply>)
    requires id in w.events && w.events[id].Checking? && StageOk(w, id, w.events[id])
    requires var Checking(event, channels, asked, missing) := w.events[id];
             |replies| == |channels| && missing == Missing(channels[..asked], replies[..asked])
    ensures var Checking(event, channels, asked, missing) := w.events[id];
            var w1 := Step(w, Answer(id, replies[asked]), false);
            var missing' := Missing(channels[..asked + 1], replies[..asked + 1]);
            && id in w1.events
            && if asked + 1 < |channels| then w1.gate == w.gate && w1.events[id] == Checking(event, channels, asked + 1, missing')
               else
                 && w1.gate == (if missing' == [] then Admit(w.gate, event.user.value) else w.gate)
                 && w1.events[id] == Done(if missing' == [] then Pass else Stop(missing'))
  {
    var Checking(event, channels, asked, missing) := w.events[id];
    MissingNext(channels, replies, asked);
    assert Step(w, Answer(id, replies[asked]), false) == AnswerStep(w, id, replies[asked], false);
    if IsMember(replies[asked]) {
      assert missing + [] == missing;
    }
  }

  lemma {:induction false} AnswersInARow(w: World, id: nat, replies: seq<Reply>)
    requires Inv(w) && Strong(w) && id in w.events && w.events[id].Checking?
    requires var Checking(event, channels, asked, missing) := w.events[id];
             && |replies| == |channels| && Ids(channels) == w.gate.signature
             && missing == Missing(channels[..asked], replies[..asked])
    ensures var Checking(event, channels, asked, missing) := w.events[id];
            var w' := Run(w, Answers(id, replies[asked..]), false);
            var all := Missing(channels, replies);
            && Inv(w') && Strong(w') && id in w'.events
            && w'.gate == (if all == [] then Admit(w.gate, event.user.value) else w.gate)
            && w'.events[id] == Done(if all == [] then Pass else Stop(all))
    decreases |replies| - w.events[id].asked
  {
    var Checking(event, channels, asked, missing) := w.events[id];
    assert StageOk(w, id, w.events[id]);
    var actions := Answers(id, replies[asked..]);
    AnswersNext(id, replies, asked);
    AnswerAdvances(w, id, replies);
    StepKeepsInv(w, actions[0], false);
    KeepsStrongExactlyWhen(w, actions[0]);
    var w1 := Step(w, actions[0], false);
    assert Run(w, actions, false) == Run(w1, actions[1..], false);
    if asked + 1 < |channels| {
      AnswersInARow(w1, id, replies);
    } else {
      assert channels[..asked + 1] == channels && replies[..asked + 1] == replies;
      assert actions[1..] == [] && Run(w1, [], false) == w1;
    }
  }

  /**
   An event that nothing interrupts does what `Call` does and keeps the strong
   form: every verified user passed every check of the list the gate names.
   */
  lemma WholeEventIsCall(w: World, id: nat, event: Event, replies: seq<Reply>)
    requires Inv(w) && Strong(w) && id !in w.events && |replies| == |w.active|
    ensures var w' := Run(w, WholeEvent(id, event, replies), false);
            && Inv(w') && Strong(w') && w'.active == w.active && id in w'.events
            && w'.events[id].Done?
            && (w'.gate, w'.events[id].outcome) == Handle(w.gate, event, w.active, replies)
  {
    var actions := WholeEvent(id, event, replies);
    var w1 := Step(w, actions[0], false);
    var w2 := Step(w1, actions[1], false);
    var w3 := Step(w2, actions[2], false);
    assert actions[0..] == actions && actions[3..] == Answers(id, replies);
    RunFrom(w, actions, 0, false);
    RunFrom(w1, actions, 1, false);
    RunFrom(w2, actions, 2, false);
    StepKeepsInv(w, actions[0], false);
    StepKeepsInv(w1, actions[1], false);
    StepKeepsInv(w2, actions[2], false);
    KeepsStrongExactlyWhen(w, actions[0]);
    KeepsStrongExactlyWhen(w1, actions[1]);
    KeepsStrongExactlyWhen(w2, actions[2]);
    if w3.events[id].Checking? {
      assert replies[0..] == replies;
      AnswersInARow(w3, id, replies);
      AnswersKeepActive(w3, id, replies);
    } else {
      DoneIsDone(w3, id, replies);
    }
  }

  datatype Turn = EditTurn(channels: Channels) | EventTurn(id: nat, event: Event, replies: seq<Reply>)

  function TurnActions(turn: Turn): seq<Action> {
    match turn
    case EditTurn(channels) => [Edit(channels)]
    case EventTurn(id, event, replies) => WholeEvent(id, event, replies)
  }

  function RunTurns(w: World, turns: seq<Turn>): World
    decreases |turns|
  {
    if turns == [] then w else RunTurns(Run(w, TurnActions(turns[0]), false), turns[1..])
  }

  /** Every event is new and gets one answer for each channel active when it begins. */
  ghost predicate Fits(w: World, turns: seq<Turn>)
    decreases |turns|
  {
    turns != [] ==>
      && (turns[0].EventTurn? ==> turns[0].id !in w.events && |turns[0].replies| == |w.active|)
      && Fits(Run(w, TurnActions(turns[0]), false), turns[1..])
  }

  /** With events handled one at a time the code needs no guard, however the list is edited between them. */
  lemma {:induction false} StrongInEveryAtomicRun(w: World, turns: seq<Turn>)
    requires Inv(w) && Strong(w) && Fits(w, turns)
    ensures Inv(RunTurns(w, turns)) && Strong(RunTurns(w, turns))
    decreases |turns|
  {
    if turns == [] {
    } else {
      var w' := Run(w, TurnActions(turns[0]), false);
      match turns[0] {
        case EditTurn(channels) =>
          StepKeepsInv(w, Edit(channels), false);
          KeepsStrongExactlyWhen(w, Edit(channels));
          assert [Edit(channels)][0..] == [Edit(channels)] && [Edit(channels)][1..] == [];
          RunFrom(w, [Edit(channels)], 0, false);
          assert w' == Step(w, Edit(channels), false);
        case EventTurn(id, event, replies) =>
          WholeEventIsCall(w, id, event, replies);
      }
      StrongInEveryAtomicRun(w', turns[1..]);
    }
  }

  lemma {:induction false} DoneIsDone(w: World, id: nat, replies: seq<Reply>)
    requires id in w.events && w.events[id].Done?
    ensures Run(w, Answers(id, replies), false) == w
    decreases |replies|
  {
    if replies == [] {
    } else {
      assert Answers(id, replies)[1..] == Answers(id, replies[1..]);
      DoneIsDone(w, id, replies[1..]);
    }
  }

  lemma {:induction false} AnswersKeepActive(w: World, id: nat, replies: seq<Reply>)
    ensures Run(w, Answers(id, replies), false).active == w.active
    decreases |replies|
  {
    if replies == [] {
    } else {
      assert Answers(id, replies)[1..] == Answers(id, replies[1..]);
      AnswersKeepActive(Step(w, Answers(id, replies)[0], false), id, replies[1..]);
    }
  }

  // -------------------------------------------------------------- the run that breaks it

  const NEWS := Channel(1, "news")
  const DEALS := Channel(2, "deals")
  const JOINED := Status("member")

  function Visit(user: User): Event {
    Event(Some(user), false, true)
  }

  /**
   User 7 is asked about the old list while an admin adds a channel and user 8
   makes the gate take up the new list. The late answer puts user 7 among the
   users verified for the new list.
   */
  const OVERTAKEN: seq<Action> := [
    Begin(0, Visit(7)), Fetch(0), Resume(0),
    Edit([NEWS, DEALS]),
    Begin(1, Visit(8)), Fetch(1), Resume(1),
    Answer(0, JOINED),
    Begin(2, Visit(7)), Fetch(2), Resume(2)]

  /** The worlds this run goes through after 3, 6, 8 and 11 steps. */
  const ASKED := World([NEWS], {[NEWS]}, Gate({}, [1]), map[0 := Checking(Visit(7), [NEWS], 0, [])], {Reading(0, 7, [NEWS])})

  const EDITED := World([NEWS, DEALS], {[NEWS], [NEWS, DEALS]}, Gate({}, [1]),
                        map[0 := Checking(Visit(7), [NEWS], 0, []), 1 := Listed(Visit(8), [NEWS, DEALS])],
                        {Reading(0, 7, [NEWS]), Reading(1, 8, [NEWS, DEALS])})

  const ADMITTED := World([NEWS, DEALS], {[NEWS], [NEWS, DEALS]}, Gate({7}, [1, 2]),
                          map[0 := Done(Pass), 1 := Checking(Visit(8), [NEWS, DEALS], 0, [])],
                          {Reading(0, 7, [NEWS]), Reading(1, 8, [NEWS, DEALS]), Check(0, 7, NEWS, true)})

  const LET_IN := World([NEWS, DEALS], {[NEWS], [NEWS, DEALS]}, Gate({7}, [1, 2]),
                        map[0 := Done(Pass), 1 := Checking(Visit(8), [NEWS, DEALS], 0, []), 2 := Done(Pass)],
                        {Reading(0, 7, [NEWS]), Reading(1, 8, [NEWS, DEALS]), Check(0, 7, NEWS, true), Reading(2, 7, [NEWS, DEALS])})

  lemma IdsOfLists()
    ensures Ids([NEWS]) == [1] && Ids([NEWS, DEALS]) == [1, 2]
  {
  }

  lemma Asked()
    ensures Run(Start([NEWS]), OVERTAKEN, false) == Run(ASKED, OVERTAKEN[3..], false)
  {
    IdsOfLists();
    assert OVERTAKEN[0..] == OVERTAKEN;
    var w := ThreeSteps(Start([NEWS]), 0);
    assert w.gate == ASKED.gate;
    assert w == ASKED;
  }

  lemma Edited()
    ensures Run(ASKED, OVERTAKEN[3..], false) == Run(EDITED, OVERTAKEN[6..], false)
  {
    var w := ThreeSteps(ASKED, 3);
    assert w.events == EDITED.events;
    assert w == EDITED;
  }

  const RENEWED := EDITED.(gate := Gate({}, [1, 2]), events := EDITED.events[1 := Checking(Visit(8), [NEWS, DEALS], 0, [])])

  lemma Renewed()
    ensures Step(EDITED, OVERTAKEN[6], false) == RENEWED
  {
  }

  lemma Answered()
    ensures Step(RENEWED, OVERTAKEN[7], false) == ADMITTED
  {
    assert RENEWED.events[0] == Checking(Visit(7), [NEWS], 0, []);
    var w := AnswerStep(RENEWED, 0, JOINED, false);
    assert w.events == ADMITTED.events;
    assert w.log == ADMITTED.log;
    assert w.gate == ADMITTED.gate;
  }

  lemma Admitted()
    ensures Run(EDITED, OVERTAKEN[6..], false) == Run(ADMITTED, OVERTAKEN[8..], false)
  {
    Renewed();
    Answered();
    RunFrom(EDITED, OVERTAKEN, 6, false);
    RunFrom(RENEWED, OVERTAKEN, 7, false);
  }

  lemma LetIn()
    ensures Run(ADMITTED, OVERTAKEN[8..], false) == LET_IN
  {
    IdsOfLists();
    var w := ThreeSteps(ADMITTED, 8);
    assert OVERTAKEN[11..] == [];
    assert w.events == LET_IN.events;
    assert w == LET_IN;
  }

  lemma NotStrong()
    ensures !Strong(LET_IN)
  {
    forall channels: Channels | Ids(channels) == [1, 2] ensures !Vetted(LET_IN, 7, channels) {
      assert Ids(channels)[1] == channels[1].id == 2;
      assert channels[1] in channels;
      assert forall id :: Check(id, 7, channels[1], true) !in LET_IN.log;
    }
    assert 7 in LET_IN.gate.verified;
  }

  /** From then on user 7 is let in though nobody ever asked about the new channel. */
  lemma StrongFormBreaks()
    ensures var w := Run(Start([NEWS]), OVERTAKEN, false);
            && w.active == [NEWS, DEALS] && w.gate == Gate({7}, Ids(w.active))
            && 2 in w.events && w.events[2] == Done(Pass)
            && (forall id, user, member :: Check(id, user, DEALS, member) !in w.log)
            && !Strong(w) && Weak(w)
  {
    IdsOfLists();
    WeakFromTheStart([NEWS], OVERTAKEN);
    Asked();
    Edited();
    Admitted();
    LetIn();
    NotStrong();
  }

  lemma ThreeSteps(w: World, k: nat) returns (w': World)
    requires k + 3 <= |OVERTAKEN|
    ensures w' == Step(Step(Step(w, OVERTAKEN[k], false), OVERTAKEN[k + 1], false), OVERTAKEN[k + 2], false)
    ensures Run(w, OVERTAKEN[k..], false) == Run(w', OVERTAKEN[k + 3..], false)
  {
    var w1 := Step(w, OVERTAKEN[k], false);
    var w2 := Step(w1, OVERTAKEN[k + 1], false);
    w' := Step(w2, OVERTAKEN[k + 2], false);
    RunFrom(w, OVERTAKEN, k, false);
    RunFrom(w1, OVERTAKEN, k + 1, false);
    RunFrom(w2, OVERTAKEN, k + 2, false);
  }
}
