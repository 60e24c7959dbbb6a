/**
 * The room registry as both services hold it: a map from room id to Room
 * object. This module states the invariant the services keep on that map
 * and the value the map stands for.
 */
module Registry {

  import opened Entities

  /** Every Player object held by some room of the registry. */
  ghost function Players(rooms: map<string, Room>): set<Player>
    reads rooms.Values
  {
    set id, p | id in rooms && p in rooms[id].players.Values :: p
  }

  /**
   * Each room is stored under its own id, each player under its own id, and
   * no Player object is shared by two rooms. (Sharing is possible in Java but
   * never happens: a player is always a `new Player` when it is added.)
   */
  ghost predicate Valid(rooms: map<string, Room>)
    reads rooms.Values, Players(rooms)
  {
    && (forall id :: id in rooms ==> rooms[id].id == id && rooms[id].Keyed())
    && (forall id1, id2 :: id1 in rooms && id2 in rooms && id1 != id2 ==>
          rooms[id1].players.Values !! rooms[id2].players.Values)
  }

  /** The registry as a value: each room replaced by its current value. */
  ghost function View(rooms: map<string, Room>): map<string, RoomState>
    reads rooms.Values, Players(rooms)
  {
    map id | id in rooms :: rooms[id].View()
  }

  // ---------------------------------------------------------------------
  // Frame lemmas: what a mutation of some rooms leaves unchanged

  /** A room whose player objects are untouched keeps its players' value. */
  twostate lemma RoomPlayersKept(room: Room)
    requires room.players == old(room.players)
    requires forall p :: p in room.players.Values ==> p.State() == old(p.State())
    ensures room.View() == old(room.View()).(id := room.id, name := room.name, revealed := room.revealed,
                                              reset := room.reset, lastActivity := room.lastActivity)
  {
    assert room.View().players == old(room.View()).players;
  }

  /** While no room's player map changes, the registry holds the same Player objects. */
  twostate lemma PlayersKept(rooms: map<string, Room>)
    requires forall id :: id in rooms ==> rooms[id].players == old(rooms[id].players)
    ensures Players(rooms) == old(Players(rooms))
  {
  }

  /** The invariant survives any change that keeps room ids, player maps and player ids. */
  twostate lemma ValidKept(rooms: map<string, Room>)
    requires old(Valid(rooms))
    requires forall id :: id in rooms ==> rooms[id].id == old(rooms[id].id) && rooms[id].players == old(rooms[id].players)
    requires forall p :: p in old(Players(rooms)) ==> p.id == old(p.id)
    ensures Valid(rooms)
  {
    forall id | id in rooms ensures rooms[id].Keyed() {
      forall k | k in rooms[id].players ensures rooms[id].players[k].id == Some(k) {
        var p := old(rooms[id].players)[k];
        assert old(p in rooms[id].players.Values);
        assert p in old(Players(rooms));
      }
    }
  }

  /** Inserting a room under a new key adds its value and its players and nothing else. */
  lemma Insert(rooms: map<string, Room>, id: string, room: Room)
    requires id !in rooms
    ensures View(rooms[id := room]) == View(rooms)[id := room.View()]
    ensures Players(rooms[id := room]) == Players(rooms) + room.players.Values
    ensures Valid(rooms) && room.id == id && room.Keyed() && room.players == map[] ==> Valid(rooms[id := room])
  {
    var rooms' := rooms[id := room];
    assert Players(rooms') == Players(rooms) + room.players.Values by {
      forall p | p in Players(rooms') ensures p in Players(rooms) + room.players.Values {
        var i :| i in rooms' && p in rooms'[i].players.Values;
        if i != id {
          assert i in rooms && p in rooms[i].players.Values;
        }
      }
      forall p | p in Players(rooms) ensures p in Players(rooms') {
        var i :| i in rooms && p in rooms[i].players.Values;
        assert i in rooms' && p in rooms'[i].players.Values;
      }
      forall p | p in room.players.Values ensures p in Players(rooms') {
        assert id in rooms' && p in rooms'[id].players.Values;
      }
    }
  }

  /**
   * Dropping entries, while no room and no player changes, keeps the
   * invariant, keeps the value of every remaining room and adds no player.
   */
  twostate lemma Shrunk(rooms: map<string, Room>, new kept: map<string, Room>)
    requires old(Valid(rooms))
    requires kept.Keys <= rooms.Keys && forall id :: id in kept ==> kept[id] == rooms[id]
    requires forall id :: id in rooms ==> unchanged(rooms[id]) && unchanged(rooms[id].players.Values)
    ensures Valid(kept)
    ensures View(kept) == map id | id in kept :: old(View(rooms))[id]
    ensures Players(kept) <= old(Players(rooms))
  {
    Untouched(rooms);
    forall p | p in Players(kept) ensures p in Players(rooms) {
      var i :| i in kept && p in kept[i].players.Values;
      assert i in rooms && p in rooms[i].players.Values;
    }
  }

  /** If no room and no player of the registry changed, neither did its value, its players or its validity. */
  twostate lemma Untouched(rooms: map<string, Room>)
    requires forall id :: id in rooms ==> unchanged(rooms[id]) && unchanged(rooms[id].players.Values)
    ensures View(rooms) == old(View(rooms))
    ensures Players(rooms) == old(Players(rooms))
    ensures old(Valid(rooms)) ==> Valid(rooms)
  {
    forall id | id in rooms ensures rooms[id].View() == old(rooms[id].View()) {
      RoomPlayersKept(rooms[id]);
    }
    PlayersKept(rooms);
    if old(Valid(rooms)) {
      ValidKept(rooms);
    }
  }

  /**
   * One room changed. If its id is kept, its players sit under their ids, and
   * each of its players was already its own or is new to the registry, then
   * the invariant still holds and only that room's value has changed.
   */
  twostate lemma ChangedOne(rooms: map<string, Room>, new id: string)
    requires old(Valid(rooms)) && id in rooms
    requires forall other :: other in rooms && other != id ==> unchanged(rooms[other])
    requires forall q :: q in old(Players(rooms)) && q !in old(rooms[id].players.Values) ==> unchanged(q)
    requires rooms[id].id == old(rooms[id].id) && rooms[id].Keyed()
    requires forall p :: p in rooms[id].players.Values ==> p in old(rooms[id].players.Values) || p !in old(Players(rooms))
    ensures Valid(rooms)
    ensures View(rooms) == old(View(rooms))[id := rooms[id].View()]
    ensures Players(rooms) == old(Players(rooms)) - old(rooms[id].players.Values) + rooms[id].players.Values
    ensures rooms[id].players == old(rooms[id].players) ==> Players(rooms) == old(Players(rooms))
  {
    forall other | other in rooms && other != id ensures unchanged(rooms[other].players.Values) {
      forall q | q in rooms[other].players.Values ensures unchanged(q) {
        assert old(q in rooms[other].players.Values);
        assert q in old(Players(rooms));
        assert old(rooms[other].players.Values !! rooms[id].players.Values);
      }
    }
    ChangedView(rooms, id);
    ChangedPlayers(rooms, id);
    ChangedValid(rooms, id);
  }

  /** The value part of `ChangedOne`. */
  twostate lemma ChangedView(rooms: map<string, Room>, new id: string)
    requires id in rooms
    requires forall other :: other in rooms && other != id ==>
      unchanged(rooms[other]) && unchanged(rooms[other].players.Values)
    ensures View(rooms) == old(View(rooms))[id := rooms[id].View()]
  {
    forall other | other in rooms && other != id ensures rooms[other].View() == old(rooms[other].View()) {
      RoomPlayersKept(rooms[other]);
    }
  }

  /** The player part of `ChangedOne`. */
  twostate lemma ChangedPlayers(rooms: map<string, Room>, new id: string)
    requires old(Valid(rooms)) && id in rooms
    requires forall other :: other in rooms && other != id ==> rooms[other].players == old(rooms[other].players)
    ensures Players(rooms) == old(Players(rooms)) - old(rooms[id].players.Values) + rooms[id].players.Values
    ensures rooms[id].players == old(rooms[id].players) ==> Players(rooms) == old(Players(rooms))
  {
    var room := rooms[id];
    forall p | p in Players(rooms)
      ensures p in old(Players(rooms)) - old(room.players.Values) + room.players.Values
    {
      var i :| i in rooms && p in rooms[i].players.Values;
      if i != id {
        assert old(p in rooms[i].players.Values);
        assert p !in old(room.players.Values);
      }
    }
    forall p | p in old(Players(rooms)) - old(room.players.Values) ensures p in Players(rooms) {
      var i :| i in rooms && old(p in rooms[i].players.Values);
      assert p in rooms[i].players.Values;
    }
    forall p | p in room.players.Values ensures p in Players(rooms) {
      assert p in rooms[id].players.Values;
    }
    forall p | p in old(room.players.Values) ensures p in old(Players(rooms)) {
      assert old(p in rooms[id].players.Values);
    }
  }

  /** The invariant part of `ChangedOne`. */
  twostate lemma ChangedValid(rooms: map<string, Room>, new id: string)
    requires old(Valid(rooms)) && id in rooms
    requires forall other :: other in rooms && other != id ==>
      unchanged(rooms[other]) && unchanged(rooms[other].players.Values)
    requires rooms[id].id == old(rooms[id].id) && rooms[id].Keyed()
    requires forall p :: p in rooms[id].players.Values ==> p in old(rooms[id].players.Values) || p !in old(Players(rooms))
    ensures Valid(rooms)
  {
    var room := rooms[id];
    forall other | other in rooms && other != id ensures rooms[other].Keyed() {
      forall k | k in rooms[other].players ensures rooms[other].players[k].id == Some(k) {
        assert old(rooms[other].players[k].id) == Some(k);
        assert rooms[other].players[k] in rooms[other].players.Values;
      }
    }
    forall id1, id2 | id1 in rooms && id2 in rooms && id1 != id2
      ensures rooms[id1].players.Values !! rooms[id2].players.Values
    {
      if id1 == id || id2 == id {
        var other := if id1 == id then id2 else id1;
        forall p | p in room.players.Values ensures p !in rooms[other].players.Values {
          if p in old(room.players.Values) {
            assert old(rooms[id].players.Values !! rooms[other].players.Values);
          } else {
            assert p !in old(Players(rooms));
            assert rooms[other].players == old(rooms[other].players);
          }
        }
      }
    }
  }

  /**
   * Setting the card of the player under `key` in room `id` changes the
   * registry's value at that key only: no other key and no other room holds
   * the same object, and the player's id is kept.
   */
  twostate lemma CardSet(rooms: map<string, Room>, new id: string, new key: string)
    requires old(Valid(rooms)) && id in rooms && key in old(rooms[id].players)
    requires forall other :: other in rooms && other != id ==> unchanged(rooms[other])
    requires forall q :: q in old(Players(rooms)) && q != old(rooms[id].players[key]) ==> unchanged(q)
    requires rooms[id].id == old(rooms[id].id) && rooms[id].players == old(rooms[id].players)
    requires rooms[id].players[key].id == old(rooms[id].players[key].id)
    ensures Valid(rooms) && Players(rooms) == old(Players(rooms))
    ensures rooms[id].View().players == old(rooms[id].View().players)[key := rooms[id].players[key].State()]
    ensures View(rooms) == old(View(rooms))[id := rooms[id].View()]
  {
    var room := rooms[id];
    forall k | k in room.players && k != key
      ensures room.players[k].State() == old(room.players[k].State())
    {
      assert old(room.players[k].id) == Some(k) && old(room.players[key].id) == Some(key);
      assert old(room.players[k] in room.players.Values);
      assert room.players[k] in old(Players(rooms));
    }
    assert room.View().players == old(room.View().players)[key := room.players[key].State()];
    assert room.Keyed();
    forall q | q in old(Players(rooms)) && q !in old(room.players.Values) ensures unchanged(q) {
      assert old(room.players[key] in room.players.Values);
    }
    ChangedOne(rooms, id);
  }

}
