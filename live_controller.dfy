/**
 * The live message handler: looks the room up, applies the message's action
 * inside a `try`, reuses the inbound message as the UPDATE broadcast, and
 * clears the room's reset flag before sending.
 */
module LiveController {

  import opened Entities
  import opened Messages
  import Handling
  import LiveService
  import RoomSpec
  import Registry

  class PokerController {
    const roomService: LiveService.RoomService

    constructor (roomService: LiveService.RoomService)
      ensures this.roomService == roomService
    {
      this.roomService := roomService;
    }

    /**
     * The JOIN case: a message without a usable player id gets the generated
     * `freshId`, and a new player with the message's id and name joins the room.
     */
    method Join(message: PokerMessage, roomId: string, freshId: string)
      requires roomService.Valid() && message.kind == Some(Messages.Join)
      modifies message, roomService.rooms.Values, roomService.Players()
      ensures roomService.Valid() && fresh(roomService.Players() - old(roomService.Players()))
      ensures message.Value() == Handling.AssignId(old(message.Value()), freshId)
      ensures roomService.Rooms() == RoomSpec.ApplyAt(old(roomService.Rooms()), roomId,
        RoomSpec.AddPlayerOp(RoomSpec.NewPlayer(message.playerId, message.playerName)))
    {
      if message.playerId.None? || message.playerId == Some("") {
        message.SetPlayerId(Some(freshId));
      }
      ghost var m1 := message.Value();
      var newPlayer := new Player(message.playerId, message.playerName);
      Registry.Untouched(roomService.rooms);
      roomService.AddPlayer(roomId, newPlayer);
      assert message.Value() == m1;
    }

    /**
     * The `switch` inside the `try` of `handleRoomMessage`, for a message
     * whose action does not throw: calls the service operation of the
     * message's type.
     */
    method Act(message: PokerMessage, roomId: string, freshId: string)
      requires roomService.Valid()
      requires !Handling.ActionFails(message.Value())
      modifies message, roomService.rooms.Values, roomService.Players()
      ensures roomService.Valid() && fresh(roomService.Players() - old(roomService.Players()))
      ensures message.Value() == Handling.AssignId(old(message.Value()), freshId)
      ensures roomService.Rooms() == Handling.LiveAct(old(roomService.Rooms()), roomId, message.Value())
    {
      ghost var m0 := message.Value();
      match message.kind.value
      case Join =>
        Join(message, roomId, freshId);
      case CardPlayed =>
        roomService.UpdatePlayerCard(roomId, message.playerId.value, message.card);
        assert message.Value() == m0;
      case Reveal =>
        roomService.RevealCards(roomId);
        assert message.Value() == m0;
      case Reset =>
        roomService.ResetRoom(roomId);
        assert message.Value() == m0;
      case Leave =>
        roomService.RemovePlayer(roomId, message.playerId.value);
        assert message.Value() == m0;
      case Update =>
    }

    /** The inbound message becomes the update: its type, players and flags are overwritten from the room. */
    method ReuseAsUpdate(message: PokerMessage, r: Room)
      modifies message
      ensures message.Value() == Handling.Reuse(old(message.Value()), r.View())
    {
      // the room is read first: overwriting the message does not touch it
      var players, revealed, reset := r.PlayerStates(), r.revealed, r.reset;
      message.SetType(Some(Update));
      message.SetPlayers(Some(players));
      message.SetRevealed(revealed);
      message.SetReset(reset);
    }

    /** The `catch`: a new update message filled from the room. */
    method ErrorUpdate(roomId: string, r: Room) returns (errorMessage: PokerMessage)
      ensures fresh(errorMessage)
      ensures errorMessage.Value() == Handling.FreshUpdate(roomId, r.View())
    {
      // the room is read first: building the message does not touch it
      var players, revealed, reset := r.PlayerStates(), r.revealed, r.reset;
      errorMessage := new PokerMessage();
      errorMessage.SetType(Some(Update));
      errorMessage.SetRoomId(Some(roomId));
      errorMessage.SetPlayers(Some(players));
      errorMessage.SetRevealed(revealed);
      errorMessage.SetReset(reset);
    }

    /**
     * `handleRoomMessage`. `freshId` stands for the UUID a JOIN without a
     * player id gets; the returned outcome stands for the broadcast.
     */
    method HandleRoomMessage(message: PokerMessage, freshId: string) returns (outcome: Outcome)
      requires roomService.Valid()
      modifies message, roomService.rooms.Values, roomService.Players()
      ensures roomService.Valid()
      ensures var s := Handling.LiveHandle(old(roomService.Rooms()), old(message.Value()), freshId);
        roomService.Rooms() == s.rooms && outcome == s.outcome && message.Value() == s.message
    {
      if message.roomId.None? {
        // `getRoom(null)` looks up a null key, which the room map rejects; this is outside the `try`
        return Threw;
      }
      var roomId := message.roomId.value;
      var room := roomService.GetRoom(roomId);
      if room.None? {
        return Dropped;
      }
      var r := room.value;
      ghost var rooms0 := roomService.Rooms();
      ghost var m0 := message.Value();
      // the null type or null player id that makes the action throw is checked up front
      if !Handling.ActionFails(message.Value()) {
        Act(message, roomId, freshId);
        label acted:
        ghost var m1 := message.Value();
        ghost var after := roomService.Rooms();
        assert r.View() == after[roomId];
        ReuseAsUpdate(message, r);
        ghost var out := message.Value();
        Registry.Untouched@acted(roomService.rooms);
        roomService.StartRoom(roomId);
        assert message.Value() == out;
        outcome := Sent(Destination(roomId), message.Value());
        assert m1 == Handling.AssignId(m0, freshId) && after == Handling.LiveAct(rooms0, roomId, m1);
        assert out == Handling.Reuse(m1, after[roomId]);
        assert Handling.LiveHandle(rooms0, m0, freshId) == Handling.Step(roomService.Rooms(), outcome, out);
      } else {
        // the action throws before changing anything, and the `catch` sends a fresh update
        var errorMessage := ErrorUpdate(roomId, r);
        Registry.Untouched(roomService.rooms);
        assert message.Value() == m0;
        outcome := Sent(Destination(roomId), errorMessage.Value());
        assert Handling.LiveHandle(rooms0, m0, freshId) == Handling.Step(roomService.Rooms(), outcome, m0);
      }
    }
  }
}
