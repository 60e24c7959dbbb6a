/**
 * The room service of the live version: a registry of rooms and the
 * mutations the message handler calls. Every operation on an unknown room
 * id does nothing. This version never touches a room's activity stamp
 * after construction.
 */
module LiveService {

  import opened Entities
  import RoomSpec
  import Registry

  class RoomService {
    var rooms: map<string, Room>

    ghost function Players(): set<Player>
      reads this, rooms.Values
    {
      Registry.Players(rooms)
    }

    ghost predicate Valid()
      reads this, rooms.Values, Players()
    {
      Registry.Valid(rooms)
    }

    /** The registry as a value. */
    ghost function Rooms(): map<string, RoomState>
      reads this, rooms.Values, Players()
    {
      Registry.View(rooms)
    }

    constructor ()
      ensures Valid() && Rooms() == map[] && Players() == {}
    {
      rooms := map[];
    }

    /**
     * `createRoom`: stores a new room under `freshId`, which stands for the
     * random UUID and so is not yet a key, and returns it.
     */
    method CreateRoom(freshId: string, name: string, now: nat) returns (room: Room)
      requires Valid() && freshId !in rooms
      modifies this
      ensures Valid() && fresh(room)
      ensures rooms == old(rooms)[freshId := room]
      ensures Rooms() == old(Rooms())[freshId := RoomSpec.NewRoom(freshId, name, now)]
      ensures Players() == old(Players())
    {
      ghost var before := rooms;
      room := new Room(freshId, name, now);
      rooms := rooms[freshId := room];
      Registry.Untouched(before);
      Registry.Insert(before, freshId, room);
    }

    /** `getRoom`: the room stored under `roomId`, or none; it never fails. */
    function GetRoom(roomId: string): (r: Option<Room>)
      reads this, rooms.Values, Players()
      requires Valid()
      ensures r.Some? <==> roomId in Rooms()
      ensures r.Some? ==> r.value in rooms.Values && r.value.id == roomId && r.value.View() == Rooms()[roomId]
      ensures r.Some? ==> r.value.players.Values <= Players()
    {
      if roomId in rooms then Some(rooms[roomId]) else None
    }

    /** `addPlayer`: stores the player under its id in the room, replacing any player there. */
    method AddPlayer(roomId: string, player: Player)
      requires Valid() && player.id.Some? && player !in Players()
      modifies rooms.Values, Players()
      ensures Valid()
      ensures Rooms() == RoomSpec.ApplyAt(old(Rooms()), roomId, RoomSpec.AddPlayerOp(player.State()))
      ensures Players() <= old(Players()) + {player}
    {
      var room := GetRoom(roomId);
      if room.Some? {
        room.value.PutPlayer(player.id.value, player);
        Registry.ChangedOne(rooms, roomId);
      } else {
        Registry.Untouched(rooms);
      }
    }

    /** `updatePlayerCard`: sets the card of a player already in the room; otherwise nothing. */
    method UpdatePlayerCard(roomId: string, playerId: string, card: Option<string>)
      requires Valid()
      modifies rooms.Values, Players()
      ensures Valid() && Players() == old(Players())
      ensures Rooms() == RoomSpec.ApplyAt(old(Rooms()), roomId, RoomSpec.UpdateCardOp(playerId, card))
    {
      var room := GetRoom(roomId);
      if room.Some? {
        var r := room.value;
        var player := r.GetPlayer(playerId);
        if player.Some? {
          ghost var target := RoomSpec.UpdateCard(r.View(), playerId, card);
          assert player.value in r.players.Values;
          player.value.SetCard(card);
          Registry.CardSet(rooms, roomId, playerId);
          assert r.View() == target;
          assert Rooms() == old(Rooms())[roomId := target];
        } else {
          Registry.Untouched(rooms);
        }
      } else {
        Registry.Untouched(rooms);
      }
    }

    /** `revealCards`: shows the room's cards. */
    method RevealCards(roomId: string)
      requires Valid()
      modifies rooms.Values, Players()
      ensures Valid() && Players() == old(Players())
      ensures Rooms() == RoomSpec.ApplyAt(old(Rooms()), roomId, RoomSpec.RevealOp)
    {
      var room := GetRoom(roomId);
      if room.Some? {
        room.value.SetRevealed(true);
        Registry.ChangedOne(rooms, roomId);
      } else {
        Registry.Untouched(rooms);
      }
    }

    /** `resetRoom`: hides the cards, raises the reset flag and clears every player's card. */
    method ResetRoom(roomId: string)
      requires Valid()
      modifies rooms.Values, Players()
      ensures Valid() && Players() == old(Players())
      ensures Rooms() == RoomSpec.ApplyAt(old(Rooms()), roomId, RoomSpec.ResetOp)
    {
      var room := GetRoom(roomId);
      if room.Some? {
        var r := room.value;
        ghost var before := r.View();
        assert before == old(Rooms())[roomId];
        ghost var target := RoomSpec.Apply(before, RoomSpec.ResetOp);
        assert target == RoomSpec.Reset(before);
        r.SetRevealed(false);
        r.SetReset(true);
        r.ClearCards();
        assert r.View() == target by {
          assert r.View().players == target.players;
        }
        Registry.ChangedOne(rooms, roomId);
      } else {
        Registry.Untouched(rooms);
      }
    }

    /** `startRoom`: clears the reset flag. */
    method StartRoom(roomId: string)
      requires Valid()
      modifies rooms.Values, Players()
      ensures Valid() && Players() == old(Players())
      ensures Rooms() == RoomSpec.ApplyAt(old(Rooms()), roomId, RoomSpec.StartOp)
    {
      var room := GetRoom(roomId);
      if room.Some? {
        room.value.SetReset(false);
        Registry.ChangedOne(rooms, roomId);
      } else {
        Registry.Untouched(rooms);
      }
    }

    /** `removePlayer`: deletes the player's entry; the room stays registered. */
    method RemovePlayer(roomId: string, playerId: string)
      requires Valid()
      modifies rooms.Values, Players()
      ensures Valid() && Players() <= old(Players())
      ensures Rooms() == RoomSpec.ApplyAt(old(Rooms()), roomId, RoomSpec.RemovePlayerOp(playerId))
    {
      var room := GetRoom(roomId);
      if room.Some? {
        var _ := room.value.RemovePlayer(playerId);
        Registry.ChangedOne(rooms, roomId);
      } else {
        Registry.Untouched(rooms);
      }
    }
  }
}
