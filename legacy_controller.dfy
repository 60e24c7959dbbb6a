/**
 * The older message handler: the same switch as the live one, but with no
 * `try` (a failing action lets the exception escape, nothing is sent), the
 * LEAVE case falling through to `default`, a new message built for the
 * broadcast, and every accepted mutation stamped with the clock value `now`.
 */
module LegacyController {

  import opened Entities
  import opened Messages
  import Handling
  import LegacyService
  import RoomSpec
  import Registry

  class PokerController {
    const roomService: LegacyService.RoomService

    constructor (roomService: LegacyService.RoomService)
      ensures this.roomService == roomService
    {
      this.roomService := roomService;
    }

    /**
     * The JOIN case: a message without a usable player id gets the generated
     * `freshId`, and a new player with the message's id and name joins the room.
     */
    method Join(message: PokerMessage, roomId: string, freshId: string, now: nat)
      requires roomService.Valid() && message.kind == Some(Messages.Join)
      modifies message, roomService.rooms.Values, roomService.Players()
      ensures roomService.Valid() && fresh(roomService.Players() - old(roomService.Players()))
      ensures message.Value() == Handling.AssignId(old(message.Value()), freshId)
      ensures roomService.Rooms() == RoomSpec.StampedApplyAt(old(roomService.Rooms()), roomId,
        RoomSpec.AddPlayerOp(RoomSpec.NewPlayer(message.playerId, message.playerName)), now)
    {
      if message.playerId.None? || message.playerId == Some("") {
        message.SetPlayerId(Some(freshId));
      }
      ghost var m1 := message.Value();
      var newPlayer := new Player(message.playerId, message.playerName);
      Registry.Untouched(roomService.rooms);
      roomService.AddPlayer(roomId, newPlayer, now);
      assert message.Value() == m1;
    }

    /**
     * The `switch` of `handleRoomMessage`, for a message whose action does
     * not throw: calls the service operation of the message's type. LEAVE
     * falls through to `default`, which does nothing.
     */
    method Act(message: PokerMessage, roomId: string, freshId: string, now: nat)
      requires roomService.Valid()
      requires !Handling.ActionFails(message.Value())
      modifies message, roomService.rooms.Values, roomService.Players()
      ensures roomService.Valid() && fresh(roomService.Players() - old(roomService.Players()))
      ensures message.Value() == Handling.AssignId(old(message.Value()), freshId)
      ensures roomService.Rooms() == Handling.LegacyAct(old(roomService.Rooms()), roomId, message.Value(), now)
    {
      ghost var m0 := message.Value();
      match message.kind.value
      case Join =>
        Join(message, roomId, freshId, now);
      case CardPlayed =>
        roomService.UpdatePlayerCard(roomId, message.playerId.value, message.card, now);
        assert message.Value() == m0;
      case Reveal =>
        roomService.RevealCards(roomId, now);
        assert message.Value() == m0;
      case Reset =>
        roomService.ResetRoom(roomId, now);
        assert message.Value() == m0;
      case Leave =>
        roomService.RemovePlayer(roomId, message.playerId.value, now);
        assert message.Value() == m0;
      case Update =>
    }

    /** The broadcast: a new update message filled from the room. */
    method UpdateMessage(roomId: string, r: Room) returns (updateMessage: PokerMessage)
      ensures fresh(updateMessage)
      ensures updateMessage.Value() == Handling.FreshUpdate(roomId, r.View())
    {
      // the room is read first: building the message does not touch it
      var players, revealed, reset := r.PlayerStates(), r.revealed, r.reset;
      updateMessage := new PokerMessage();
      updateMessage.SetType(Some(Update));
      updateMessage.SetRoomId(Some(roomId));
      updateMessage.SetPlayers(Some(players));
      updateMessage.SetRevealed(revealed);
      updateMessage.SetReset(reset);
    }

    /**
     * What follows the lookup of an existing room when the action does not
     * throw: the action, the update built from the room, then `startRoom`.
     */
    method Serve(message: PokerMessage, roomId: string, r: Room, freshId: string, now: nat) returns (outcome: Outcome)
      requires roomService.Valid() && roomId in roomService.rooms && roomService.rooms[roomId] == r
      requires !Handling.ActionFails(message.Value())
      modifies message, roomService.rooms.Values, roomService.Players()
      ensures roomService.Valid()
      ensures message.Value() == Handling.AssignId(old(message.Value()), freshId)
      ensures var acted := Handling.LegacyAct(old(roomService.Rooms()), roomId, message.Value(), now);
        && roomService.Rooms() == RoomSpec.StampedApplyAt(acted, roomId, RoomSpec.StartOp, now)
        && outcome == Sent(Destination(roomId), Handling.FreshUpdate(roomId, acted[roomId]))
    {
      Act(message, roomId, freshId, now);
      label acted:
      ghost var m1 := message.Value();
      assert r.View() == roomService.Rooms()[roomId];
      var updateMessage := UpdateMessage(roomId, r);
      Registry.Untouched@acted(roomService.rooms);
      assert message.Value() == m1;
      roomService.StartRoom(roomId, now);
      assert message.Value() == m1;
      outcome := Sent(Destination(roomId), updateMessage.Value());
    }

    /**
     * `handleRoomMessage`. `freshId` stands for the UUID a JOIN without a
     * player id gets, `now` for the clock; the returned outcome stands for
     * the broadcast, or for the exception that escapes.
     */
    method HandleRoomMessage(message: PokerMessage, freshId: string, now: nat) returns (outcome: Outcome)
      requires roomService.Valid()
      modifies message, roomService.rooms.Values, roomService.Players()
      ensures roomService.Valid()
      ensures var s := Handling.LegacyHandle(old(roomService.Rooms()), old(message.Value()), freshId, now);
        roomService.Rooms() == s.rooms && outcome == s.outcome && message.Value() == s.message
    {
      if message.roomId.None? {
        // `getRoom(null)` looks up a null key, which the room map rejects
        return Threw;
      }
      var roomId := message.roomId.value;
      var room := roomService.GetRoom(roomId);
      if room.None? {
        return Dropped;
      }
      // the null type or null player id that makes the action throw is checked up front
      if Handling.ActionFails(message.Value()) {
        return Threw;
      }
      outcome := Serve(message, roomId, room.value, freshId, now);
    }
  }
}
