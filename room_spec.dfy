/**
 * The room operations of the service layer stated on values: what each
 * mutation does to one room, to the registry of rooms, and which rooms the
 * stale-room reaper keeps. The service classes are proved against these.
 */
module RoomSpec {

  import opened Entities
  import MapFacts

  /** A room idle for longer than one hour (in milliseconds) is stale. */
  const StaleThresholdMillis: nat := 60 * 60 * 1000

  /** The value `new Room(id, name)` has when the clock reads `now`. */
  function NewRoom(id: string, name: string, now: nat): (r: RoomState)
    ensures r.id == id && r.name == name && r.lastActivity == now
    ensures r.players == map[] && !r.revealed && !r.reset
  {
    RoomState(id, name, map[], false, false, now)
  }

  /** The value `new Player(id, name)` has. */
  function NewPlayer(id: Option<string>, name: Option<string>): (p: PlayerState)
    ensures p.id == id && p.name == name && p.card == NotPlayed
  {
    PlayerState(id, name, NotPlayed)
  }

  /** Every player value sits under its own id. */
  ghost predicate Keyed(m: map<string, PlayerState>)
  {
    forall k :: k in m ==> m[k].id == Some(k)
  }

  /** `addPlayer`: inserts the player under its id, or overwrites the player already there. */
  function AddPlayer(r: RoomState, p: PlayerState): (r': RoomState)
    requires p.id.Some?
    ensures r'.players.Keys == r.players.Keys + {p.id.value}
    ensures r'.players[p.id.value] == p
    ensures forall k :: k in r.players && k != p.id.value ==> r'.players[k] == r.players[k]
    ensures r'.(players := r.players) == r
  {
    r.(players := r.players[p.id.value := p])
  }

  /** `updatePlayerCard`: changes the card of a player that is present, and nothing otherwise. */
  function UpdateCard(r: RoomState, playerId: string, card: Option<string>): (r': RoomState)
    ensures playerId !in r.players ==> r' == r
    ensures r'.players.Keys == r.players.Keys
    ensures playerId in r.players ==> r'.players[playerId] == r.players[playerId].(card := card)
    ensures forall k :: k in r.players && k != playerId ==> r'.players[k] == r.players[k]
    ensures r'.(players := r.players) == r
  {
    if playerId in r.players then
      r.(players := r.players[playerId := r.players[playerId].(card := card)])
    else
      r
  }

  /** `revealCards`: shows the cards; the players are untouched. */
  function Reveal(r: RoomState): (r': RoomState)
    ensures r'.revealed
    ensures r'.(revealed := r.revealed) == r
  {
    r.(revealed := true)
  }

  /**
   * `resetRoom`: hides the cards, raises the transient reset flag and takes
   * every player's card back to "not played", keeping ids and names.
   */
  function Reset(r: RoomState): (r': RoomState)
    ensures !r'.revealed && r'.reset
    ensures r'.players.Keys == r.players.Keys
    ensures forall k :: k in r'.players ==>
      r'.players[k].card == NotPlayed && r'.players[k].id == r.players[k].id && r'.players[k].name == r.players[k].name
    ensures r'.id == r.id && r'.name == r.name && r'.lastActivity == r.lastActivity
  {
    r.(revealed := false, reset := true, players := map k | k in r.players :: r.players[k].(card := NotPlayed))
  }

  /** `startRoom`: clears the transient reset flag and nothing else. */
  function Start(r: RoomState): (r': RoomState)
    ensures !r'.reset
    ensures r'.(reset := r.reset) == r
  {
    r.(reset := false)
  }

  /** `removePlayer`: deletes the entry if present; the room itself stays, even if now empty. */
  function RemovePlayer(r: RoomState, playerId: string): (r': RoomState)
    ensures r'.players.Keys == r.players.Keys - {playerId}
    ensures forall k :: k in r'.players ==> r'.players[k] == r.players[k]
    ensures playerId !in r.players ==> r' == r
    ensures r'.(players := r.players) == r
  {
    r.(players := r.players - {playerId})
  }

  /** `updateLastActivity`: stamps the room with the clock value `now`. */
  function Touch(r: RoomState, now: nat): (r': RoomState)
    ensures r'.lastActivity == now
    ensures r'.(lastActivity := r.lastActivity) == r
  {
    r.(lastActivity := now)
  }

  /** The mutations the service offers on one room. */
  datatype Op =
    | AddPlayerOp(player: PlayerState)
    | UpdateCardOp(playerId: string, card: Option<string>)
    | RevealOp
    | ResetOp
    | StartOp
    | RemovePlayerOp(playerId: string)

  /** An operation the registry can carry out: a player added has an id to be stored under. */
  predicate WellFormed(op: Op)
  {
    op.AddPlayerOp? ==> op.player.id.Some?
  }

  function Apply(r: RoomState, op: Op): (r': RoomState)
    requires WellFormed(op)
    ensures r'.id == r.id && r'.name == r.name && r'.lastActivity == r.lastActivity
    ensures op.AddPlayerOp? ==> r'.players.Keys == r.players.Keys + {op.player.id.value}
    ensures !op.AddPlayerOp? ==> r'.players.Keys <= r.players.Keys
    ensures op.RemovePlayerOp? ==> op.playerId !in r'.players
  {
    match op
    case AddPlayerOp(p) => AddPlayer(r, p)
    case UpdateCardOp(pid, card) => UpdateCard(r, pid, card)
    case RevealOp => Reveal(r)
    case ResetOp => Reset(r)
    case StartOp => Start(r)
    case RemovePlayerOp(pid) => RemovePlayer(r, pid)
  }

  /**
   * The service of the live version: looks the room up and applies the
   * operation to it; an unknown room id leaves the registry as it is.
   */
  function ApplyAt(rooms: map<string, RoomState>, id: string, op: Op): (rooms': map<string, RoomState>)
    requires WellFormed(op)
    ensures rooms'.Keys == rooms.Keys
    ensures id !in rooms ==> rooms' == rooms
    ensures id in rooms ==> rooms'[id] == Apply(rooms[id], op)
    ensures forall other :: other in rooms && other != id ==> rooms'[other] == rooms[other]
  {
    if id in rooms then rooms[id := Apply(rooms[id], op)] else rooms
  }

  /**
   * Whether the older service counts the operation as accepted and stamps the
   * room: every operation is, except a card played by an absent player.
   */
  predicate Accepted(r: RoomState, op: Op): (accepted: bool)
    ensures !op.UpdateCardOp? ==> accepted
    ensures !accepted ==> UpdateCard(r, op.playerId, op.card) == r
  {
    op.UpdateCardOp? ==> op.playerId in r.players
  }

  /** The older service: applies the operation and stamps the room when it is accepted. */
  function StampedApply(r: RoomState, op: Op, now: nat): (r': RoomState)
    requires WellFormed(op)
    ensures Accepted(r, op) ==> r'.lastActivity == now
    ensures !Accepted(r, op) ==> r' == r
    ensures r'.(lastActivity := 0) == Apply(r, op).(lastActivity := 0)
  {
    if Accepted(r, op) then Touch(Apply(r, op), now) else r
  }

  function StampedApplyAt(rooms: map<string, RoomState>, id: string, op: Op, now: nat): (rooms': map<string, RoomState>)
    requires WellFormed(op)
    ensures rooms'.Keys == rooms.Keys
    ensures id !in rooms ==> rooms' == rooms
    ensures id in rooms ==> rooms'[id] == StampedApply(rooms[id], op, now)
    ensures forall other :: other in rooms && other != id ==> rooms'[other] == rooms[other]
  {
    if id in rooms then rooms[id := StampedApply(rooms[id], op, now)] else rooms
  }

  /** Strictly more than the threshold has elapsed since the room's last activity. */
  predicate IsStale(r: RoomState, now: nat): (stale: bool)
    ensures stale ==> r.lastActivity < now
    ensures now <= r.lastActivity + StaleThresholdMillis ==> !stale
  {
    now - r.lastActivity > StaleThresholdMillis
  }

  /** `removeStaleRoom`: keeps exactly the rooms that are not stale, each as it was. */
  function ReapStale(rooms: map<string, RoomState>, now: nat): (kept: map<string, RoomState>)
    ensures forall id :: id in kept <==> id in rooms && !IsStale(rooms[id], now)
    ensures forall id :: id in kept ==> kept[id] == rooms[id]
  {
    map id | id in rooms && !IsStale(rooms[id], now) :: rooms[id]
  }

  // ---------------------------------------------------------------------
  // Properties of the operations

  /** Revealing twice is revealing once. */
  lemma RevealIdempotent(r: RoomState)
    ensures Reveal(Reveal(r)) == Reveal(r)
  {
  }

  /** Resetting twice is resetting once. */
  lemma ResetIdempotent(r: RoomState)
    ensures Reset(Reset(r)) == Reset(r)
  {
    assert Reset(Reset(r)).players == Reset(r).players;
  }

  /** Both idempotences hold for the registry too. */
  lemma ApplyAtIdempotent(rooms: map<string, RoomState>, id: string, op: Op)
    requires op.RevealOp? || op.ResetOp? || op.StartOp?
    ensures ApplyAt(ApplyAt(rooms, id, op), id, op) == ApplyAt(rooms, id, op)
  {
    if id in rooms {
      if op.ResetOp? {
        ResetIdempotent(rooms[id]);
      }
    }
  }

  /** A room no one answers to is never changed, whatever the operation. */
  lemma UnknownRoomUnchanged(rooms: map<string, RoomState>, id: string, op: Op, now: nat)
    requires WellFormed(op) && id !in rooms
    ensures ApplyAt(rooms, id, op) == rooms
    ensures StampedApplyAt(rooms, id, op, now) == rooms
  {
  }

  /** A stale room is removed and a room exactly at the threshold is kept (the comparison is strict). */
  lemma ReapBoundary(rooms: map<string, RoomState>, id: string, now: nat)
    requires id in rooms
    ensures now - rooms[id].lastActivity > StaleThresholdMillis ==> id !in ReapStale(rooms, now)
    ensures now - rooms[id].lastActivity == StaleThresholdMillis ==> ReapStale(rooms, now)[id] == rooms[id]
  {
  }

  /** Every operation keeps each player under its own id. */
  lemma ApplyKeepsKeyed(r: RoomState, op: Op)
    requires WellFormed(op) && Keyed(r.players)
    ensures Keyed(Apply(r, op).players)
  {
    match op
    case AddPlayerOp(p) =>
      var r' := AddPlayer(r, p);
      forall k | k in r'.players ensures r'.players[k].id == Some(k) {
        if k != p.id.value {
          assert r'.players[k] == r.players[k];
        }
      }
    case UpdateCardOp(pid, card) =>
      var r' := UpdateCard(r, pid, card);
      forall k | k in r'.players ensures r'.players[k].id == Some(k) {
        assert r'.players[k].id == r.players[k].id;
      }
    case ResetOp =>
      var r' := Reset(r);
      forall k | k in r'.players ensures r'.players[k].id == Some(k) {
        assert r'.players[k].id == r.players[k].id;
      }
    case RemovePlayerOp(pid) =>
      var r' := RemovePlayer(r, pid);
      forall k | k in r'.players ensures r'.players[k].id == Some(k) {
        assert r'.players[k] == r.players[k];
      }
    case RevealOp =>
    case StartOp =>
  }

  /**
   * The player collection a room exposes (the map's values) has one entry per
   * player when every player sits under its own id: nothing is lost in it.
   */
  lemma PlayerListComplete(m: map<string, PlayerState>)
    requires Keyed(m)
    ensures |m.Values| == |m|
    ensures forall k :: k in m ==> m[k] in m.Values
  {
    assert MapFacts.Injective(m) by {
      forall a, b | a in m && b in m && a != b ensures m[a] != m[b] {
        assert m[a].id == Some(a) && m[b].id == Some(b);
      }
    }
    MapFacts.InjectiveValues(m);
  }

  /** How an operation moves the transient reset flag: RESET raises it, START clears it, the rest keep it. */
  lemma ApplyReset(r: RoomState, op: Op)
    requires WellFormed(op)
    ensures Apply(r, op).reset == (op.ResetOp? || (r.reset && !op.StartOp?))
    ensures op.RevealOp? ==> Apply(r, op).revealed
    ensures op.ResetOp? ==> !Apply(r, op).revealed
  {
  }

  /** Stamping aside, the older service's operations do what the live ones do. */
  lemma StampedAgrees(r: RoomState, op: Op, now: nat)
    requires WellFormed(op)
    ensures StampedApply(r, op, now).(lastActivity := 0) == Apply(r, op).(lastActivity := 0)
    ensures Accepted(r, op) ==> StampedApply(r, op, now) == Touch(Apply(r, op), now)
    ensures !Accepted(r, op) ==> Apply(r, op) == r
  {
  }
}
