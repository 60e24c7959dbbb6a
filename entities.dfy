/**
 * The two entities of the planning-poker server: a Player (a mutable bean
 * with an id, a display name and a played card) and a Room (an estimation
 * round holding a map of players, two round flags and an activity stamp).
 * Java's `null` is modelled by `None` for the nullable string fields.
 */
module Entities {

  import MapFacts

  datatype Option<T> = None | Some(value: T)

  /** The value of a player's three fields; `Some("")` as card means "not played". */
  datatype PlayerState = PlayerState(id: Option<string>, name: Option<string>, card: Option<string>)

  /** The value of a room's fields, with each player replaced by its value. */
  datatype RoomState = RoomState(
    id: string,
    name: string,
    players: map<string, PlayerState>,
    revealed: bool,
    reset: bool,
    lastActivity: nat)

  /** The card a freshly joined player holds. */
  const NotPlayed: Option<string> := Some("")

  /** A participant of a room: a bean whose setters change one field each. */
  class Player {
    var id: Option<string>
    var name: Option<string>
    var card: Option<string>

    /** The no-argument constructor leaves every field null. */
    constructor Empty()
      ensures State() == PlayerState(None, None, None)
    {
      id, name, card := None, None, None;
    }

    /** A new player with the given id and name has not played a card. */
    constructor (id: Option<string>, name: Option<string>)
      ensures State() == PlayerState(id, name, NotPlayed)
    {
      this.id, this.name, this.card := id, name, NotPlayed;
    }

    function State(): PlayerState
      reads this
    {
      PlayerState(id, name, card)
    }

    method SetId(v: Option<string>)
      modifies this
      ensures State() == old(State()).(id := v)
    {
      id := v;
    }

    method SetName(v: Option<string>)
      modifies this
      ensures State() == old(State()).(name := v)
    {
      name := v;
    }

    method SetCard(v: Option<string>)
      modifies this
      ensures State() == old(State()).(card := v)
    {
      card := v;
    }

    /** Structural equality over all three fields, as the generated `equals` does. */
    method Equals(other: Player) returns (eq: bool)
      ensures eq <==> State() == other.State()
    {
      eq := id == other.id && name == other.name && card == other.card;
    }
  }

  /** One estimation room. `players` maps a player id to the Player object. */
  class Room {
    var id: string
    var name: string
    var players: map<string, Player>
    var revealed: bool
    var reset: bool
    var lastActivity: nat

    /** A new room is hidden, not resetting, empty, and stamped with the clock value `now`. */
    constructor (id: string, name: string, now: nat)
      ensures this.id == id && this.name == name
      ensures players == map[] && !revealed && !reset
      ensures lastActivity == now
    {
      this.id, this.name := id, name;
      players := map[];
      revealed, reset := false, false;
      lastActivity := now;
    }

    /** The value of this room, reading the current fields of its players. */
    function View(): RoomState
      reads this, players.Values
    {
      RoomState(id, name, map k | k in players :: players[k].State(), revealed, reset, lastActivity)
    }

    /** Every player is stored under its own id (the key `addPlayer` uses). */
    ghost predicate Keyed()
      reads this, players.Values
    {
      forall k :: k in players ==> players[k].id == Some(k)
    }

    /** Sets the activity stamp to the clock value `now`. */
    method UpdateLastActivity(now: nat)
      modifies this
      ensures lastActivity == now
      ensures id == old(id) && name == old(name) && players == old(players)
      ensures revealed == old(revealed) && reset == old(reset)
      ensures View() == old(View()).(lastActivity := now)
    {
      lastActivity := now;
    }

    method SetRevealed(v: bool)
      modifies this
      ensures revealed == v
      ensures id == old(id) && name == old(name) && players == old(players)
      ensures reset == old(reset) && lastActivity == old(lastActivity)
      ensures View() == old(View()).(revealed := v)
    {
      revealed := v;
    }

    method SetReset(v: bool)
      modifies this
      ensures reset == v
      ensures id == old(id) && name == old(name) && players == old(players)
      ensures revealed == old(revealed) && lastActivity == old(lastActivity)
      ensures View() == old(View()).(reset := v)
    {
      reset := v;
    }

    /** `getPlayers().get(key)`: the player stored under `key`, if any. */
    function GetPlayer(key: string): (p: Option<Player>)
      reads this
      ensures p.Some? <==> key in players
      ensures p.Some? ==> p.value == players[key]
    {
      if key in players then Some(players[key]) else None
    }

    /** `getPlayers().put(key, p)`: inserts or overwrites the entry under `key`. */
    method PutPlayer(key: string, p: Player)
      modifies this
      ensures players == old(players)[key := p]
      ensures id == old(id) && name == old(name)
      ensures revealed == old(revealed) && reset == old(reset) && lastActivity == old(lastActivity)
      ensures View() == old(View()).(players := old(View().players)[key := p.State()])
      ensures players.Values <= old(players.Values) + {p}
    {
      players := players[key := p];
      assert View().players == old(View().players)[key := p.State()];
    }

    /** `getPlayers().remove(key)`: deletes the entry and returns what it held. */
    method RemovePlayer(key: string) returns (previous: Option<Player>)
      modifies this
      ensures previous == if key in old(players) then Some(old(players)[key]) else None
      ensures players == old(players) - {key}
      ensures id == old(id) && name == old(name)
      ensures revealed == old(revealed) && reset == old(reset) && lastActivity == old(lastActivity)
      ensures View() == old(View()).(players := old(View().players) - {key})
      ensures players.Values <= old(players.Values)
    {
      previous := if key in players then Some(players[key]) else None;
      players := players - {key};
      assert View().players == old(View().players) - {key};
    }

    /**
     * `getPlayers().values().forEach(player -> player.setCard(""))`: takes
     * every player's card back to "not played", one player at a time.
     */
    method ClearCards()
      requires Keyed()
      modifies players.Values
      ensures Keyed()
      ensures View() == old(View()).(players := map k | k in old(View().players) :: old(View().players[k]).(card := NotPlayed))
    {
      assert MapFacts.Injective(players) by {
        forall a, b | a in players && b in players && a != b ensures players[a] != players[b] {
          assert players[a].id == Some(a) && players[b].id == Some(b);
        }
      }
      var pending := players.Keys;
      while pending != {}
        invariant pending <= players.Keys
        invariant forall k :: k in players ==>
          players[k].State() == if k in pending then old(players[k].State()) else old(players[k].State()).(card := NotPlayed)
        decreases pending
      {
        var k :| k in pending;
        players[k].SetCard(NotPlayed);
        pending := pending - {k};
      }
      assert View().players == map k | k in old(View().players) :: old(View().players[k]).(card := NotPlayed);
    }

    /**
     * `getPlayerList()`: the collection of the map's values. Since no player
     * object sits under two keys, it has one element per player.
     */
    function PlayerList(): (s: set<Player>)
      reads this, players.Values
      ensures forall k :: k in players ==> players[k] in s
      ensures forall p :: p in s ==> exists k :: k in players && players[k] == p
      ensures Keyed() ==> |s| == |players|
    {
      MapFacts.InjectiveValues(players);
      players.Values
    }

    /** The values of `getPlayerList()`, as a client receives them: the player values of `View()`. */
    function PlayerStates(): (s: set<PlayerState>)
      reads this, players.Values
      ensures s == View().players.Values
    {
      var s := set p | p in PlayerList() :: p.State();
      assert s == View().players.Values by {
        forall v | v in View().players.Values ensures v in s {
          var k :| k in View().players && View().players[k] == v;
          assert players[k] in PlayerList();
        }
        forall v | v in s ensures v in View().players.Values {
          var p :| p in PlayerList() && v == p.State();
          var k :| k in players && players[k] == p;
          assert View().players[k] == v;
        }
      }
      s
    }
  }
}
