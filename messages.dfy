/**
 * The STOMP message both controllers receive and broadcast, and what handling
 * one message leads to. A message is a mutable bean: the live controller
 * overwrites the inbound one field by field before broadcasting it.
 */
module Messages {

  import opened Entities

  datatype MessageType = Join | CardPlayed | Reveal | Reset | Leave | Update

  /**
   * The value of a message's fields. `players` is the collection of player
   * values a client receives; `None` stands for an unset (null) field.
   */
  datatype MessageValue = MessageValue(
    kind: Option<MessageType>,
    roomId: Option<string>,
    playerId: Option<string>,
    playerName: Option<string>,
    card: Option<string>,
    players: Option<set<PlayerState>>,
    revealed: bool,
    reset: bool)

  /** The value of `new PokerMessage()`: every reference null, both flags false. */
  const EmptyMessage: MessageValue := MessageValue(None, None, None, None, None, None, false, false)

  /**
   * What handling one message leads to: it is ignored, an exception escapes
   * the handler, or exactly one message is sent to `destination`.
   */
  datatype Outcome = Dropped | Threw | Sent(destination: string, payload: MessageValue)

  const TopicPrefix: string := "/topic/room/"

  /** The channel of a room's subscribers. */
  function Destination(roomId: string): (d: string)
    ensures |d| == |TopicPrefix| + |roomId|
    ensures d[..|TopicPrefix|] == TopicPrefix && d[|TopicPrefix|..] == roomId
  {
    TopicPrefix + roomId
  }

  /** Different rooms broadcast on different channels, so an update reaches only its own room. */
  lemma DestinationInjective(a: string, b: string)
    ensures Destination(a) == Destination(b) <==> a == b
  {
    if Destination(a) == Destination(b) {
      assert a == Destination(a)[|TopicPrefix|..];
    }
  }

  class PokerMessage {
    var kind: Option<MessageType>
    var roomId: Option<string>
    var playerId: Option<string>
    var playerName: Option<string>
    var card: Option<string>
    var players: Option<set<PlayerState>>
    var revealed: bool
    var reset: bool

    constructor ()
      ensures Value() == EmptyMessage
    {
      kind, roomId, playerId, playerName, card, players := None, None, None, None, None, None;
      revealed, reset := false, false;
    }

    function Value(): MessageValue
      reads this
    {
      MessageValue(kind, roomId, playerId, playerName, card, players, revealed, reset)
    }

    method SetType(v: Option<MessageType>)
      modifies this
      ensures Value() == old(Value()).(kind := v)
    {
      kind := v;
    }

    method SetRoomId(v: Option<string>)
      modifies this
      ensures Value() == old(Value()).(roomId := v)
    {
      roomId := v;
    }

    method SetPlayerId(v: Option<string>)
      modifies this
      ensures Value() == old(Value()).(playerId := v)
    {
      playerId := v;
    }

    method SetPlayers(v: Option<set<PlayerState>>)
      modifies this
      ensures Value() == old(Value()).(players := v)
    {
      players := v;
    }

    method SetRevealed(v: bool)
      modifies this
      ensures Value() == old(Value()).(revealed := v)
    {
      revealed := v;
    }

    method SetReset(v: bool)
      modifies this
      ensures Value() == old(Value()).(reset := v)
    {
      reset := v;
    }
  }
}
