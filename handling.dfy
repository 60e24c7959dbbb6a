/**
 * `handleRoomMessage` of both controllers, stated on values: how one message
 * changes the registry, what it broadcasts and what becomes of the inbound
 * message. The controller classes are proved against these functions.
 */
module Handling {

  import opened Entities
  import opened Messages
  import RoomSpec

  /** The registry, the outcome and the inbound message after one message is handled. */
  datatype Step = Step(rooms: map<string, RoomState>, outcome: Outcome, message: MessageValue)

  /** A JOIN without a usable player id: the id is null or empty. */
  predicate MissingId(id: Option<string>)
  {
    id.None? || id == Some("")
  }

  /** A JOIN with a missing player id gets the generated one; any other message keeps its id. */
  function AssignId(m: MessageValue, freshId: string): (m': MessageValue)
    ensures m'.(playerId := m.playerId) == m
    ensures !(m.kind == Some(Join) && MissingId(m.playerId)) ==> m' == m
    ensures m.kind == Some(Join) && freshId != "" ==> !MissingId(m'.playerId)
    ensures m.kind == Some(Join) ==> m'.playerId.Some?
  {
    if m.kind == Some(Join) && MissingId(m.playerId) then m.(playerId := Some(freshId)) else m
  }

  /**
   * The action throws before it changes anything: `switch` on a null type,
   * or a null player id used as a key of the player map (whose `get` and
   * `remove` reject null).
   */
  predicate ActionFails(m: MessageValue): (fails: bool)
    ensures m.kind.None? ==> fails
    ensures m.kind == Some(Join) || m.kind == Some(Reveal) || m.kind == Some(Reset) || m.kind == Some(Update) ==> !fails
    ensures m.kind == Some(CardPlayed) || m.kind == Some(Leave) ==> (fails <==> m.playerId.None?)
  {
    || m.kind.None?
    || ((m.kind == Some(CardPlayed) || m.kind == Some(Leave)) && m.playerId.None?)
  }

  /** The service operation each message type calls; UPDATE falls to `default` and calls none. */
  function Dispatch(m: MessageValue): (op: Option<RoomSpec.Op>)
    requires !ActionFails(m) && (m.kind == Some(Join) ==> m.playerId.Some?)
    ensures op.None? <==> m.kind == Some(Update)
    ensures op.Some? ==> RoomSpec.WellFormed(op.value)
    ensures m.kind == Some(Join) ==> op == Some(RoomSpec.AddPlayerOp(RoomSpec.NewPlayer(m.playerId, m.playerName)))
    ensures m.kind == Some(CardPlayed) ==> op == Some(RoomSpec.UpdateCardOp(m.playerId.value, m.card))
    ensures m.kind == Some(Reveal) ==> op == Some(RoomSpec.RevealOp)
    ensures m.kind == Some(Reset) ==> op == Some(RoomSpec.ResetOp)
    ensures m.kind == Some(Leave) ==> op == Some(RoomSpec.RemovePlayerOp(m.playerId.value))
  {
    match m.kind.value
    case Join => Some(RoomSpec.AddPlayerOp(RoomSpec.NewPlayer(m.playerId, m.playerName)))
    case CardPlayed => Some(RoomSpec.UpdateCardOp(m.playerId.value, m.card))
    case Reveal => Some(RoomSpec.RevealOp)
    case Reset => Some(RoomSpec.ResetOp)
    case Leave => Some(RoomSpec.RemovePlayerOp(m.playerId.value))
    case Update => None
  }

  /** The registry after the live action of a message that does not fail. */
  function LiveAct(rooms: map<string, RoomState>, id: string, m: MessageValue): (rooms': map<string, RoomState>)
    requires !ActionFails(m) && (m.kind == Some(Join) ==> m.playerId.Some?)
    ensures rooms'.Keys == rooms.Keys
    ensures id !in rooms || m.kind == Some(Update) ==> rooms' == rooms
    ensures forall other :: other in rooms && other != id ==> rooms'[other] == rooms[other]
    ensures id in rooms && m.kind == Some(Leave) ==> m.playerId.value !in rooms'[id].players
    ensures id in rooms && m.kind == Some(Join) ==> m.playerId.value in rooms'[id].players
  {
    var op := Dispatch(m);
    if op.Some? then RoomSpec.ApplyAt(rooms, id, op.value) else rooms
  }

  /** The registry after the older, stamping action of a message that does not fail. */
  function LegacyAct(rooms: map<string, RoomState>, id: string, m: MessageValue, now: nat): (rooms': map<string, RoomState>)
    requires !ActionFails(m) && (m.kind == Some(Join) ==> m.playerId.Some?)
    ensures rooms'.Keys == rooms.Keys
    ensures id !in rooms || m.kind == Some(Update) ==> rooms' == rooms
    ensures forall other :: other in rooms && other != id ==> rooms'[other] == rooms[other]
    ensures id in rooms && m.kind == Some(Leave) ==> m.playerId.value !in rooms'[id].players && rooms'[id].lastActivity == now
    ensures id in rooms && m.kind == Some(Join) ==> m.playerId.value in rooms'[id].players && rooms'[id].lastActivity == now
  {
    var op := Dispatch(m);
    if op.Some? then RoomSpec.StampedApplyAt(rooms, id, op.value, now) else rooms
  }

  /** A new message filled with the room's current state, as both `new PokerMessage()` paths build it. */
  function FreshUpdate(roomId: string, r: RoomState): (u: MessageValue)
    ensures u.kind == Some(Update) && u.roomId == Some(roomId)
    ensures u.playerId.None? && u.playerName.None? && u.card.None?
    ensures u.players == Some(r.players.Values)
    ensures u.revealed == r.revealed && u.reset == r.reset
  {
    EmptyMessage.(kind := Some(Update), roomId := Some(roomId), players := Some(r.players.Values),
                  revealed := r.revealed, reset := r.reset)
  }

  /** The inbound message reused as the update: type, players and both flags overwritten. */
  function Reuse(m: MessageValue, r: RoomState): (u: MessageValue)
    ensures u.kind == Some(Update)
    ensures u.roomId == m.roomId && u.playerId == m.playerId && u.playerName == m.playerName && u.card == m.card
    ensures u.players == Some(r.players.Values)
    ensures u.revealed == r.revealed && u.reset == r.reset
  {
    m.(kind := Some(Update), players := Some(r.players.Values), revealed := r.revealed, reset := r.reset)
  }

  /** The live handler, with `freshId` standing for the UUID a JOIN may need. */
  function LiveHandle(rooms: map<string, RoomState>, m: MessageValue, freshId: string): (s: Step)
    ensures s.rooms.Keys == rooms.Keys
    ensures s.outcome.Threw? <==> m.roomId.None?
    ensures s.outcome.Dropped? <==> m.roomId.Some? && m.roomId.value !in rooms
    ensures s.outcome.Sent? ==> s.outcome.destination == Destination(m.roomId.value) && s.outcome.payload.kind == Some(Update)
    ensures s.outcome.Sent? ==> s.outcome.payload.roomId == m.roomId
    ensures !s.outcome.Sent? || ActionFails(m) ==> s.rooms == rooms && s.message == m
  {
    if m.roomId.None? then
      Step(rooms, Threw, m)
    else if m.roomId.value !in rooms then
      Step(rooms, Dropped, m)
    else
      var id := m.roomId.value;
      if ActionFails(m) then
        Step(rooms, Sent(Destination(id), FreshUpdate(id, rooms[id])), m)
      else
        var m1 := AssignId(m, freshId);
        var acted := LiveAct(rooms, id, m1);
        var out := Reuse(m1, acted[id]);
        Step(RoomSpec.ApplyAt(acted, id, RoomSpec.StartOp), Sent(Destination(id), out), out)
  }

  /**
   * The older handler, with `now` standing for the clock of every stamp. No
   * `try`: a failing action lets the exception escape and nothing is sent.
   */
  function LegacyHandle(rooms: map<string, RoomState>, m: MessageValue, freshId: string, now: nat): (s: Step)
    ensures s.rooms.Keys == rooms.Keys
    ensures s.outcome.Threw? <==> m.roomId.None? || (m.roomId.value in rooms && ActionFails(m))
    ensures s.outcome.Dropped? <==> m.roomId.Some? && m.roomId.value !in rooms
    ensures s.outcome.Sent? ==> s.outcome.destination == Destination(m.roomId.value) && s.outcome.payload.kind == Some(Update)
    ensures s.outcome.Sent? ==> s.outcome.payload.roomId == m.roomId
    ensures !s.outcome.Sent? ==> s.rooms == rooms && s.message == m
  {
    if m.roomId.None? then
      Step(rooms, Threw, m)
    else if m.roomId.value !in rooms then
      Step(rooms, Dropped, m)
    else
      var id := m.roomId.value;
      if ActionFails(m) then
        Step(rooms, Threw, m)
      else
        var m1 := AssignId(m, freshId);
        var acted := LegacyAct(rooms, id, m1, now);
        Step(RoomSpec.StampedApplyAt(acted, id, RoomSpec.StartOp, now), Sent(Destination(id), FreshUpdate(id, acted[id])), m1)
  }

  // ---------------------------------------------------------------------
  // Properties of one handled message

  /** A message for a room that does not exist changes nothing and sends nothing, in both versions. */
  lemma UnknownRoomIgnored(rooms: map<string, RoomState>, m: MessageValue, freshId: string, now: nat)
    requires m.roomId.Some? && m.roomId.value !in rooms
    ensures LiveHandle(rooms, m, freshId) == Step(rooms, Dropped, m)
    ensures LegacyHandle(rooms, m, freshId, now) == Step(rooms, Dropped, m)
  {
  }

  /**
   * JOIN adds a player under the supplied id, or under the generated one when
   * the id is null or empty; the player has the given name and no card, the
   * inbound message carries the id it was given, and the update lists the player.
   */
  lemma JoinAddsPlayer(rooms: map<string, RoomState>, m: MessageValue, freshId: string)
    requires m.roomId.Some? && m.roomId.value in rooms && m.kind == Some(Join)
    ensures var pid := if MissingId(m.playerId) then freshId else m.playerId.value;
      var s := LiveHandle(rooms, m, freshId);
      var r := rooms[m.roomId.value];
      && s.message.playerId == Some(pid)
      && s.rooms[m.roomId.value].players.Keys == r.players.Keys + {pid}
      && s.rooms[m.roomId.value].players[pid] == PlayerState(Some(pid), m.playerName, NotPlayed)
      && (forall k :: k in r.players && k != pid ==> s.rooms[m.roomId.value].players[k] == r.players[k])
      && s.outcome.Sent? && s.outcome.payload.players.Some?
      && PlayerState(Some(pid), m.playerName, NotPlayed) in s.outcome.payload.players.value
    ensures freshId != "" ==> LiveHandle(rooms, m, freshId).message.playerId != Some("")
  {
    var id := m.roomId.value;
    var pid := if MissingId(m.playerId) then freshId else m.playerId.value;
    var m1 := AssignId(m, freshId);
    assert m1.playerId == Some(pid);
    var acted := RoomSpec.ApplyAt(rooms, id, RoomSpec.AddPlayerOp(RoomSpec.NewPlayer(m1.playerId, m1.playerName)));
    assert acted[id].players[pid] in acted[id].players.Values;
  }

  /**
   * The broadcast flags are read before `startRoom` runs: the update shows
   * `reset` exactly when this message was RESET or the room was already
   * resetting, while the stored room ends with `reset` cleared.
   */
  lemma ResetSeenBeforeStart(rooms: map<string, RoomState>, m: MessageValue, freshId: string)
    requires m.roomId.Some? && m.roomId.value in rooms && !ActionFails(m)
    ensures var s := LiveHandle(rooms, m, freshId);
      && s.outcome.Sent?
      && (s.outcome.payload.reset <==> m.kind == Some(Reset) || rooms[m.roomId.value].reset)
      && (m.kind == Some(Reset) ==> !s.outcome.payload.revealed)
      && (m.kind == Some(Reveal) ==> s.outcome.payload.revealed)
      && !s.rooms[m.roomId.value].reset
  {
    var m1 := AssignId(m, freshId);
    var op := Dispatch(m1);
    if op.Some? {
      RoomSpec.ApplyReset(rooms[m.roomId.value], op.value);
    }
  }

  /**
   * The update lists the room's players as they are once the action is
   * applied (`startRoom` does not touch them), one entry per player.
   */
  lemma BroadcastListsPlayers(rooms: map<string, RoomState>, m: MessageValue, freshId: string)
    requires m.roomId.Some? && m.roomId.value in rooms && RoomSpec.Keyed(rooms[m.roomId.value].players)
    ensures var s := LiveHandle(rooms, m, freshId);
      var after := s.rooms[m.roomId.value].players;
      && s.outcome.Sent?
      && s.outcome.payload.players == Some(after.Values)
      && |after.Values| == |after|
  {
    var id := m.roomId.value;
    var s := LiveHandle(rooms, m, freshId);
    if !ActionFails(m) {
      var m1 := AssignId(m, freshId);
      var op := Dispatch(m1);
      if op.Some? {
        RoomSpec.ApplyKeepsKeyed(rooms[id], op.value);
      }
    }
    RoomSpec.PlayerListComplete(s.rooms[id].players);
  }

  /**
   * The update is the inbound message reused: its room id, player name and
   * card carry over, and so does its player id unless a JOIN was given one.
   */
  lemma ReusedMessageCarriesFields(rooms: map<string, RoomState>, m: MessageValue, freshId: string)
    requires m.roomId.Some? && m.roomId.value in rooms && !ActionFails(m)
    ensures var s := LiveHandle(rooms, m, freshId);
      && s.outcome.Sent? && s.outcome.payload == s.message
      && s.message.roomId == m.roomId && s.message.playerName == m.playerName && s.message.card == m.card
      && s.message.playerId == AssignId(m, freshId).playerId
      && s.message.kind == Some(Update)
  {
  }

  /**
   * When the action throws, the live handler catches it: the registry is
   * untouched, `startRoom` is not called (a pending reset stays), and a new
   * update with the room's current state is still sent to the room.
   */
  lemma FailureStillBroadcasts(rooms: map<string, RoomState>, m: MessageValue, freshId: string, now: nat)
    requires m.roomId.Some? && m.roomId.value in rooms && ActionFails(m)
    ensures var s := LiveHandle(rooms, m, freshId);
      var r := rooms[m.roomId.value];
      && s.rooms == rooms
      && s.outcome == Sent(Destination(m.roomId.value), FreshUpdate(m.roomId.value, r))
      && s.outcome.payload.reset == r.reset && s.outcome.payload.revealed == r.revealed
      && s.outcome.payload.players == Some(r.players.Values)
    ensures LegacyHandle(rooms, m, freshId, now) == Step(rooms, Threw, m)
  {
  }

  /** Handling a REVEAL, RESET or UPDATE message a second time changes the registry no further. */
  lemma HandleIdempotent(rooms: map<string, RoomState>, m: MessageValue, freshId: string)
    requires m.kind == Some(Reveal) || m.kind == Some(Reset) || m.kind == Some(Update)
    ensures var once := LiveHandle(rooms, m, freshId).rooms;
      LiveHandle(once, m, freshId).rooms == once
  {
    if m.roomId.Some? && m.roomId.value in rooms {
      var id := m.roomId.value;
      var r := rooms[id];
      var once := LiveHandle(rooms, m, freshId).rooms;
      if m.kind == Some(Reset) {
        RoomSpec.ResetIdempotent(r);
        assert RoomSpec.Reset(RoomSpec.Start(RoomSpec.Reset(r))) == RoomSpec.Reset(r) by {
          assert RoomSpec.Reset(RoomSpec.Start(RoomSpec.Reset(r))).players == RoomSpec.Reset(r).players;
        }
      }
    }
  }

  // ---------------------------------------------------------------------
  // The older handler

  /**
   * LEAVE has no `break` and falls through to `default`, which only breaks:
   * the player's entry is removed once, and the room is stamped.
   */
  lemma LeaveFallsThrough(rooms: map<string, RoomState>, m: MessageValue, freshId: string, now: nat)
    requires m.roomId.Some? && m.roomId.value in rooms && m.kind == Some(Leave) && m.playerId.Some?
    ensures var s := LegacyHandle(rooms, m, freshId, now);
      var r := rooms[m.roomId.value];
      var r' := s.rooms[m.roomId.value];
      && r'.players.Keys == r.players.Keys - {m.playerId.value}
      && (forall k :: k in r'.players ==> r'.players[k] == r.players[k])
      && r'.lastActivity == now && !r'.reset && r'.revealed == r.revealed
      && s.outcome.Sent? && s.outcome.payload.players == Some(r'.players.Values)
  {
  }

  /**
   * The older handler sends a new message carrying only the room id, the
   * players and both flags as they were right after the action; `startRoom`
   * then clears `reset`, and every handled message leaves the room stamped.
   */
  lemma LegacyUpdateSnapshot(rooms: map<string, RoomState>, m: MessageValue, freshId: string, now: nat)
    requires m.roomId.Some? && m.roomId.value in rooms && !ActionFails(m)
    ensures var s := LegacyHandle(rooms, m, freshId, now);
      var r' := s.rooms[m.roomId.value];
      && s.outcome.Sent?
      && s.outcome.payload == FreshUpdate(m.roomId.value, r'.(reset := s.outcome.payload.reset))
      && s.outcome.payload.playerId.None? && s.outcome.payload.card.None?
      && (s.outcome.payload.reset <==> m.kind == Some(Reset) || rooms[m.roomId.value].reset)
      && !r'.reset && r'.lastActivity == now
      && s.message == AssignId(m, freshId)
  {
    var id := m.roomId.value;
    var m1 := AssignId(m, freshId);
    var op := Dispatch(m1);
    if op.Some? {
      RoomSpec.ApplyReset(rooms[id], op.value);
    }
  }

  /** The registry with every activity stamp blanked out. */
  function Unstamped(rooms: map<string, RoomState>): map<string, RoomState>
  {
    map id | id in rooms :: rooms[id].(lastActivity := 0)
  }

  /** Stamping aside, one operation does the same to the registry in both versions. */
  lemma UnstampedApplyAt(rooms: map<string, RoomState>, id: string, op: RoomSpec.Op, now: nat)
    requires RoomSpec.WellFormed(op)
    ensures Unstamped(RoomSpec.StampedApplyAt(rooms, id, op, now)) == Unstamped(RoomSpec.ApplyAt(rooms, id, op))
  {
    if id in rooms {
      RoomSpec.StampedAgrees(rooms[id], op, now);
    }
  }

  /** Registries equal up to stamps stay so when `startRoom` runs on both. */
  lemma UnstampedStart(a: map<string, RoomState>, b: map<string, RoomState>, id: string, now: nat)
    requires Unstamped(a) == Unstamped(b)
    ensures Unstamped(RoomSpec.StampedApplyAt(a, id, RoomSpec.StartOp, now)) == Unstamped(RoomSpec.ApplyAt(b, id, RoomSpec.StartOp))
  {
    var a', b' := RoomSpec.StampedApplyAt(a, id, RoomSpec.StartOp, now), RoomSpec.ApplyAt(b, id, RoomSpec.StartOp);
    assert a.Keys == b.Keys by {
      assert a.Keys == Unstamped(a).Keys && b.Keys == Unstamped(b).Keys;
    }
    forall k | k in a' ensures Unstamped(a')[k] == Unstamped(b')[k] {
      assert Unstamped(a)[k] == Unstamped(b)[k];
    }
  }

  /**
   * Both versions agree on everything but the activity stamps: the same
   * registry and the same players and flags in the update.
   */
  lemma VersionsAgree(rooms: map<string, RoomState>, m: MessageValue, freshId: string, now: nat)
    requires m.roomId.Some? && m.roomId.value in rooms && !ActionFails(m)
    ensures var live := LiveHandle(rooms, m, freshId);
      var legacy := LegacyHandle(rooms, m, freshId, now);
      && Unstamped(legacy.rooms) == Unstamped(live.rooms)
      && live.outcome.Sent? && legacy.outcome.Sent?
      && legacy.outcome.destination == live.outcome.destination
      && legacy.outcome.payload.players == live.outcome.payload.players
      && legacy.outcome.payload.revealed == live.outcome.payload.revealed
      && legacy.outcome.payload.reset == live.outcome.payload.reset
  {
    var id := m.roomId.value;
    var m1 := AssignId(m, freshId);
    var liveActed := LiveAct(rooms, id, m1);
    var legacyActed := LegacyAct(rooms, id, m1, now);
    assert Unstamped(legacyActed) == Unstamped(liveActed) by {
      var op := Dispatch(m1);
      if op.Some? {
        UnstampedApplyAt(rooms, id, op.value, now);
      }
    }
    assert legacyActed[id].(lastActivity := 0) == liveActed[id].(lastActivity := 0) by {
      assert Unstamped(legacyActed)[id] == Unstamped(liveActed)[id];
    }
    UnstampedStart(legacyActed, liveActed, id, now);
  }

  // ---------------------------------------------------------------------
  // The reset flag over a run of messages

  /** No room is in the transient reset state. */
  ghost predicate Settled(rooms: map<string, RoomState>)
  {
    forall id :: id in rooms ==> !rooms[id].reset
  }

  /** The live handler over a run of messages, each JOIN taking its own generated id. */
  function LiveRun(rooms: map<string, RoomState>, ms: seq<MessageValue>, freshIds: seq<string>): (run: (map<string, RoomState>, seq<Outcome>))
    requires |freshIds| == |ms|
    ensures |run.1| == |ms|
    ensures run.0.Keys == rooms.Keys
    decreases |ms|
  {
    if ms == [] then
      (rooms, [])
    else
      var s := LiveHandle(rooms, ms[0], freshIds[0]);
      var rest := LiveRun(s.rooms, ms[1..], freshIds[1..]);
      (rest.0, [s.outcome] + rest.1)
  }

  /** One message keeps a settled registry settled, and its update shows `reset` exactly for RESET. */
  lemma SettledStep(rooms: map<string, RoomState>, m: MessageValue, freshId: string)
    requires Settled(rooms)
    ensures var s := LiveHandle(rooms, m, freshId);
      && Settled(s.rooms)
      && (s.outcome.Sent? ==> (s.outcome.payload.reset <==> m.kind == Some(Reset)))
  {
    var s := LiveHandle(rooms, m, freshId);
    if m.roomId.Some? && m.roomId.value in rooms && !ActionFails(m) {
      ResetSeenBeforeStart(rooms, m, freshId);
      forall id | id in s.rooms ensures !s.rooms[id].reset {
        if id != m.roomId.value {
          var m1 := AssignId(m, freshId);
          var op := Dispatch(m1);
          assert s.rooms[id] == rooms[id];
        }
      }
    }
  }

  /**
   * From a registry where no room is resetting, every update of a run shows
   * `reset` exactly when its own message was RESET: a reset is visible in
   * one broadcast and cleared by the next; and the registry stays settled.
   */
  lemma {:induction false} ResetVisibleOnce(rooms: map<string, RoomState>, ms: seq<MessageValue>, freshIds: seq<string>)
    requires |freshIds| == |ms| && Settled(rooms)
    ensures Settled(LiveRun(rooms, ms, freshIds).0)
    ensures var out := LiveRun(rooms, ms, freshIds).1;
      forall i :: 0 <= i < |ms| && out[i].Sent? ==> (out[i].payload.reset <==> ms[i].kind == Some(Reset))
    decreases |ms|
  {
    if ms != [] {
      var s := LiveHandle(rooms, ms[0], freshIds[0]);
      SettledStep(rooms, ms[0], freshIds[0]);
      ResetVisibleOnce(s.rooms, ms[1..], freshIds[1..]);
      var out := LiveRun(rooms, ms, freshIds).1;
      var rest := LiveRun(s.rooms, ms[1..], freshIds[1..]).1;
      assert out == [s.outcome] + rest;
      forall i | 0 <= i < |ms| && out[i].Sent? ensures out[i].payload.reset <==> ms[i].kind == Some(Reset) {
        if i > 0 {
          assert out[i] == rest[i - 1] && ms[i] == ms[1..][i - 1];
        }
      }
    }
  }
}
