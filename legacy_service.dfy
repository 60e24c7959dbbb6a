/**
 * The room service of the older version: the same registry and mutations as
 * the live one, except that every accepted mutation stamps the room with the
 * clock value `now`, plus a reaper that drops rooms idle for over an hour.
 */
module LegacyService {

  import opened Entities
  import RoomSpec
  import Registry

  class RoomService {
    var rooms: map<string, Room>

    ghost function Players(): set<Player>
      reads this, rooms.Values
    {
      Registry.Players(rooms)
    }

    ghost predicate Valid()
      reads this, rooms.Values, Players()
    {
      Registry.Valid(rooms)
    }

    /** The registry as a value. */
    ghost function Rooms(): map<string, RoomState>
      reads this, rooms.Values, Players()
    {
      Registry.View(rooms)
    }

    constructor ()
      ensures Valid() && Rooms() == map[] && Players() == {}
    {
      rooms := map[];
    }

    /**
     * `createRoom`: stores a new room under `freshId`, which stands for the
     * random UUID and so is not yet a key, stamped with the clock value `now`.
     */
    method CreateRoom(freshId: string, name: string, now: nat) returns (room: Room)
      requires Valid() && freshId !in rooms
      modifies this
      ensures Valid() && fresh(room)
      ensures rooms == old(rooms)[freshId := room]
      ensures Rooms() == old(Rooms())[freshId := RoomSpec.NewRoom(freshId, name, now)]
      ensures Players() == old(Players())
    {
      ghost var before := rooms;
      room := new Room(freshId, name, now);
      rooms := rooms[freshId := room];
      Registry.Untouched(before);
      Registry.Insert(before, freshId, room);
    }

    /** `getRoom`: the room stored under `roomId`, or none; it never fails. */
    function GetRoom(roomId: string): (r: Option<Room>)
      reads this, rooms.Values, Players()
      requires Valid()
      ensures r.Some? <==> roomId in Rooms()
      ensures r.Some? ==> r.value in rooms.Values && r.value.id == roomId && r.value.View() == Rooms()[roomId]
      ensures r.Some? ==> r.value.players.Values <= Players()
    {
      if roomId in rooms then Some(rooms[roomId]) else None
    }

    /** `addPlayer`: stores the player under its id and stamps the room. */
    method AddPlayer(roomId: string, player: Player, now: nat)
      requires Valid() && player.id.Some? && player !in Players()
      modifies rooms.Values, Players()
      ensures Valid()
      ensures Rooms() == RoomSpec.StampedApplyAt(old(Rooms()), roomId, RoomSpec.AddPlayerOp(player.State()), now)
      ensures Players() <= old(Players()) + {player}
    {
      var room := GetRoom(roomId);
      if room.Some? {
        var r := room.value;
        ghost var target := RoomSpec.StampedApply(r.View(), RoomSpec.AddPlayerOp(player.State()), now);
        r.PutPlayer(player.id.value, player);
        r.UpdateLastActivity(now);
        assert r.View() == target;
        Registry.ChangedOne(rooms, roomId);
      } else {
        Registry.Untouched(rooms);
      }
    }

    /**
     * `updatePlayerCard`: sets the card of a player already in the room and
     * stamps the room; for an absent player nothing changes, not even the stamp.
     */
    method UpdatePlayerCard(roomId: string, playerId: string, card: Option<string>, now: nat)
      requires Valid()
      modifies rooms.Values, Players()
      ensures Valid() && Players() == old(Players())
      ensures Rooms() == RoomSpec.StampedApplyAt(old(Rooms()), roomId, RoomSpec.UpdateCardOp(playerId, card), now)
    {
      var room := GetRoom(roomId);
      if room.Some? {
        var r := room.value;
        var player := r.GetPlayer(playerId);
        if player.Some? {
          ghost var target := RoomSpec.StampedApply(r.View(), RoomSpec.UpdateCardOp(playerId, card), now);
          assert player.value in r.players.Values;
          player.value.SetCard(card);
          r.UpdateLastActivity(now);
          Registry.CardSet(rooms, roomId, playerId);
          assert r.View() == target;
          assert Rooms() == old(Rooms())[roomId := target];
        } else {
          Registry.Untouched(rooms);
        }
      } else {
        Registry.Untouched(rooms);
      }
    }

    /** `revealCards`: shows the room's cards and stamps the room. */
    method RevealCards(roomId: string, now: nat)
      requires Valid()
      modifies rooms.Values, Players()
      ensures Valid() && Players() == old(Players())
      ensures Rooms() == RoomSpec.StampedApplyAt(old(Rooms()), roomId, RoomSpec.RevealOp, now)
    {
      var room := GetRoom(roomId);
      if room.Some? {
        var r := room.value;
        ghost var target := RoomSpec.StampedApply(r.View(), RoomSpec.RevealOp, now);
        r.SetRevealed(true);
        r.UpdateLastActivity(now);
        assert r.View() == target;
        Registry.ChangedOne(rooms, roomId);
      } else {
        Registry.Untouched(rooms);
      }
    }

    /** `resetRoom`: hides the cards, raises the reset flag, clears every card and stamps the room. */
    method ResetRoom(roomId: string, now: nat)
      requires Valid()
      modifies rooms.Values, Players()
      ensures Valid() && Players() == old(Players())
      ensures Rooms() == RoomSpec.StampedApplyAt(old(Rooms()), roomId, RoomSpec.ResetOp, now)
    {
      var room := GetRoom(roomId);
      if room.Some? {
        var r := room.value;
        ghost var target := RoomSpec.StampedApply(r.View(), RoomSpec.ResetOp, now);
        r.SetRevealed(false);
        r.SetReset(true);
        r.ClearCards();
        r.UpdateLastActivity(now);
        assert r.View() == target by {
          assert r.View().players == target.players;
        }
        Registry.ChangedOne(rooms, roomId);
      } else {
        Registry.Untouched(rooms);
      }
    }

    /** `startRoom`: clears the reset flag and stamps the room. */
    method StartRoom(roomId: string, now: nat)
      requires Valid()
      modifies rooms.Values, Players()
      ensures Valid() && Players() == old(Players())
      ensures Rooms() == RoomSpec.StampedApplyAt(old(Rooms()), roomId, RoomSpec.StartOp, now)
    {
      var room := GetRoom(roomId);
      if room.Some? {
        var r := room.value;
        ghost var target := RoomSpec.StampedApply(r.View(), RoomSpec.StartOp, now);
        r.SetReset(false);
        r.UpdateLastActivity(now);
        assert r.View() == target;
        Registry.ChangedOne(rooms, roomId);
      } else {
        Registry.Untouched(rooms);
      }
    }

    /** `removePlayer`: deletes the player's entry and stamps the room, even when no such player was there. */
    method RemovePlayer(roomId: string, playerId: string, now: nat)
      requires Valid()
      modifies rooms.Values, Players()
      ensures Valid() && Players() <= old(Players())
      ensures Rooms() == RoomSpec.StampedApplyAt(old(Rooms()), roomId, RoomSpec.RemovePlayerOp(playerId), now)
    {
      var room := GetRoom(roomId);
      if room.Some? {
        var r := room.value;
        ghost var target := RoomSpec.StampedApply(r.View(), RoomSpec.RemovePlayerOp(playerId), now);
        var _ := r.RemovePlayer(playerId);
        r.UpdateLastActivity(now);
        assert r.View() == target;
        Registry.ChangedOne(rooms, roomId);
      } else {
        Registry.Untouched(rooms);
      }
    }

    /**
     * `removeStaleRoom`: walks over the entries and removes, in place, every
     * room idle for strictly longer than the threshold at clock value `now`.
     */
    method RemoveStaleRoom(now: nat)
      requires Valid()
      modifies this
      ensures Valid()
      ensures Rooms() == RoomSpec.ReapStale(old(Rooms()), now)
      ensures rooms.Keys <= old(rooms.Keys) && forall id :: id in rooms ==> rooms[id] == old(rooms[id])
    {
      var pending := rooms.Keys;
      while pending != {}
        invariant pending <= rooms.Keys <= old(rooms.Keys)
        invariant forall id :: id in rooms ==> rooms[id] == old(rooms[id])
        invariant forall id :: id in old(rooms) ==>
          (id in rooms <==> id in pending || !RoomSpec.IsStale(old(rooms[id].View()), now))
        decreases pending
      {
        var id :| id in pending;
        if now - rooms[id].lastActivity > RoomSpec.StaleThresholdMillis {
          rooms := rooms - {id};
        }
        pending := pending - {id};
      }
      Registry.Shrunk(old(rooms), rooms);
      assert rooms.Keys == RoomSpec.ReapStale(old(Rooms()), now).Keys;
    }
  }
}
