# Planning poker: room registry and message handler

A Dafny model of the server side of a planning-poker web application, with
proofs about the model. Players join an estimation room, play cards, reveal
them and start a new round. The server keeps an in-memory registry of rooms.
A STOMP message handler turns each inbound message into one registry mutation
and one broadcast of the room's state to the room's topic.

The repository holds two versions of that core, and both are modelled:

- **The live version** (package `de.lbarden`):
  - `RoomService`, whose mutations never touch a room's activity stamp;
  - `PokerController.handleRoomMessage`, which applies the action inside a
    `try`, reuses the inbound message as the broadcast, and sends a fresh
    update from its `catch`.
- **The older version** (package `com.example`):
  - `RoomService`, which stamps `lastActivity` on every accepted mutation
    and has the `removeStaleRoom` reaper;
  - `PokerController`, which has no `try`; its LEAVE case falls through to
    `default`, and it builds a new message for the broadcast.

The older service and controller call members (`setReset`,
`updateLastActivity`, `getLastActivity`, `LEAVE`, a `reset` field) that the
older package's own `Room` and `PokerMessage` beans do not have. Both versions
are therefore modelled over the live `Room` and `Player` entities.

Structure:

- `map_facts.dfy` (`MapFacts`): an injective map has as many values as keys.
- `entities.dfy` (`Entities`): the `Player` and `Room` classes, which are
  mutable beans. Each has a value view (`PlayerState`, `RoomState`), and
  `Option` stands for Java's `null`.
- `room_spec.dfy` (`RoomSpec`): every room operation stated on values:
  - one room (`Apply`);
  - the registry, live version (`ApplyAt`);
  - the registry, older stamping version (`StampedApply`, `StampedApplyAt`);
  - the reaper (`ReapStale`).
- `registry.dfy` (`Registry`): the invariant both services keep on their
  `map<string, Room>`, and the frame lemmas for their mutations. The invariant
  says:
  - each room is stored under its own id;
  - each player is stored under its own id;
  - no Player object is shared by two rooms.
- `live_service.dfy` and `legacy_service.dfy`: the two `RoomService` classes.
  Each method is proved to turn `Rooms()` (the registry as a value) into the
  corresponding `RoomSpec` function of the old value.
- `messages.dfy` (`Messages`): the message bean `PokerMessage`, its value,
  the broadcast `Outcome` and the topic name.
- `handling.dfy` (`Handling`): both handlers as functions on values
  (`LiveHandle`, `LegacyHandle`), and the properties of one message and of a
  run of messages.
- `live_controller.dfy` and `legacy_controller.dfy`: the two
  `PokerController` classes, proved against `LiveHandle` and `LegacyHandle`.

Values that Java computes from outside the program become parameters:

- the broadcast `messagingTemplate.convertAndSend` becomes the returned
  `Outcome`;
- `UUID.randomUUID()` becomes `freshId`;
- `System.currentTimeMillis()` becomes `now`.

Null handling:

- A null key in a `ConcurrentHashMap` throws. So does a `switch` on a null
  message type.
- The model states exactly which messages make an action throw
  (`Handling.ActionFails`). Such a message throws before it changes anything.
- In these cases:
  - the live version takes its `catch` path;
  - the older version lets the exception escape (`Threw`);
  - both versions throw for a null room id, because `getRoom(null)` is
    called outside the `try`.

## Model

Source paths are relative to the repository root.

| member | source | states |
|---|---|---|
| Entities.Player.Empty | src/main/java/de/lbarden/planningpoker/model/Player.java:16 | the no-argument player has null id, name and card |
| Entities.Player.constructor | src/main/java/de/lbarden/planningpoker/model/Player.java:18-22 | a new player has the given id and name and the card `""` (not played) |
| Entities.Player.SetId | src/main/java/de/lbarden/planningpoker/model/Player.java:6 | the Lombok setter changes the id and no other field |
| Entities.Player.SetName | src/main/java/de/lbarden/planningpoker/model/Player.java:6 | the Lombok setter changes the name and no other field |
| Entities.Player.SetCard | src/main/java/de/lbarden/planningpoker/model/Player.java:6 | the Lombok setter changes the card and no other field |
| Entities.Player.Equals | src/main/java/de/lbarden/planningpoker/model/Player.java:6 | the generated `equals` holds exactly when all three fields agree |
| Entities.Room.constructor | src/main/java/de/lbarden/planningpoker/model/Room.java:25-30 | a new room has the given id and name, no players, is neither revealed nor resetting, and is stamped with the clock value |
| Entities.Room.UpdateLastActivity | src/main/java/de/lbarden/planningpoker/model/Room.java:32-34 | the stamp becomes the clock value; every other field and the room's value otherwise are unchanged |
| Entities.Room.SetRevealed | src/main/java/de/lbarden/planningpoker/model/Room.java:11-18 | the Lombok setter changes `revealed` and nothing else of the room's value |
| Entities.Room.SetReset | src/main/java/de/lbarden/planningpoker/model/Room.java:11-19 | the Lombok setter changes `reset` and nothing else of the room's value |
| Entities.Room.GetPlayer | src/main/java/de/lbarden/planningpoker/service/RoomService.java:37 | `getPlayers().get(id)` finds a player exactly when the key is present, and it is the player stored under that key |
| Entities.Room.PutPlayer | src/main/java/de/lbarden/planningpoker/service/RoomService.java:30 | `put` stores the player under the key, overwriting any player there; the room's value gains exactly that entry |
| Entities.Room.RemovePlayer | src/main/java/de/lbarden/planningpoker/service/RoomService.java:70 | `remove` deletes the key and returns the previous player, or none for an absent key; the room's value loses exactly that entry |
| Entities.Room.ClearCards | src/main/java/de/lbarden/planningpoker/service/RoomService.java:56 | the `forEach` over the map's values sets every player's card to `""`, keeping ids, names and keys |
| Entities.Room.PlayerList | src/main/java/de/lbarden/planningpoker/model/Room.java:37-39 | `getPlayerList` holds every player of the map and nothing else, and has one element per key when players sit under their ids |
| Entities.Room.PlayerStates | src/main/java/de/lbarden/planningpoker/model/Room.java:37-39 | the values of `getPlayerList` are exactly the player values of the room |
| RoomSpec.NewRoom | src/main/java/de/lbarden/planningpoker/model/Room.java:25-30 | a new room's value has the given id and name, no players, both flags false and the clock value as stamp |
| RoomSpec.NewPlayer | src/main/java/de/lbarden/planningpoker/model/Player.java:18-22 | a new player's value has the given id and name and the card `""` |
| RoomSpec.AddPlayer | src/main/java/de/lbarden/planningpoker/service/RoomService.java:27-32 | the player's id becomes a key mapped to the player; all other entries and fields are kept |
| RoomSpec.UpdateCard | src/main/java/de/lbarden/planningpoker/service/RoomService.java:34-42 | only a present player's card changes; an absent player leaves the room equal to itself |
| RoomSpec.Reveal | src/main/java/de/lbarden/planningpoker/service/RoomService.java:44-49 | `revealed` becomes true and nothing else changes |
| RoomSpec.Reset | src/main/java/de/lbarden/planningpoker/service/RoomService.java:51-58 | hidden and resetting, every card `""`, same keys, ids, names, room id, name and stamp |
| RoomSpec.Start | src/main/java/de/lbarden/planningpoker/service/RoomService.java:60-65 | `reset` becomes false and nothing else changes |
| RoomSpec.RemovePlayer | src/main/java/de/lbarden/planningpoker/service/RoomService.java:67-72 | the key goes and every other entry stays; an absent key changes nothing; the room stays even if empty |
| RoomSpec.Touch | src/main/java/de/lbarden/planningpoker/model/Room.java:32-34 | the stamp becomes `now` and nothing else changes |
| RoomSpec.Apply | src/main/java/de/lbarden/planningpoker/service/RoomService.java:27-72 | each mutation keeps the room's id, name and stamp; only an added player brings a new key, which is its id; a removed player's key is gone |
| RoomSpec.ApplyAt | src/main/java/de/lbarden/planningpoker/service/RoomService.java:28-29 | same keys; an unknown room id changes nothing; only the named room changes |
| RoomSpec.StampedApply | src/main/java/com/example/planningpoker/service/RoomService.java:29-80 | an accepted operation leaves the room stamped with `now`; a card for an absent player leaves the room as it was, stamp included; stamps aside, it is the live operation |
| RoomSpec.Accepted | src/main/java/com/example/planningpoker/service/RoomService.java:40-44 | every operation but a card is stamped; a card goes unstamped only for an absent player, and then it changes nothing |
| RoomSpec.IsStale | src/main/java/com/example/planningpoker/service/RoomService.java:91 | a stale room was last touched before `now`, and a room touched at most 3,600,000 ms ago is not stale |
| RoomSpec.StampedApplyAt | src/main/java/com/example/planningpoker/service/RoomService.java:30-31 | same keys; an unknown room id changes nothing; only the named room changes |
| RoomSpec.ReapStale | src/main/java/com/example/planningpoker/service/RoomService.java:84-96 | exactly the rooms idle for strictly more than the threshold are gone; every kept room is unchanged |
| RoomSpec.RevealIdempotent | src/main/java/de/lbarden/planningpoker/service/RoomService.java:44-49 | revealing twice equals revealing once |
| RoomSpec.ResetIdempotent | src/main/java/de/lbarden/planningpoker/service/RoomService.java:51-58 | resetting twice equals resetting once |
| RoomSpec.ApplyAtIdempotent | src/main/java/de/lbarden/planningpoker/service/RoomService.java:44-65 | reveal, reset and start applied twice to the registry equal one application |
| RoomSpec.UnknownRoomUnchanged | src/main/java/com/example/planningpoker/service/RoomService.java:31-76 | every operation of either version on an unknown room id leaves the registry unchanged |
| RoomSpec.ReapBoundary | src/main/java/com/example/planningpoker/service/RoomService.java:86-91 | a room idle for more than 3,600,000 ms is removed, and one idle for exactly that long is kept unchanged |
| RoomSpec.ApplyKeepsKeyed | src/main/java/de/lbarden/planningpoker/service/RoomService.java:27-72 | every operation keeps each player under its own id |
| RoomSpec.PlayerListComplete | src/main/java/de/lbarden/planningpoker/model/Room.java:37-39 | with players under their own ids, the map's values have one element per key and contain every player |
| RoomSpec.ApplyReset | src/main/java/de/lbarden/planningpoker/service/RoomService.java:51-65 | RESET raises `reset`, START clears it, every other operation keeps it; REVEAL shows and RESET hides the cards |
| RoomSpec.StampedAgrees | src/main/java/com/example/planningpoker/service/RoomService.java:29-80 | stamps aside, the older operations do what the live ones do; an accepted one equals the live operation followed by the stamp |
| LiveService.RoomService.constructor | src/main/java/de/lbarden/planningpoker/service/RoomService.java:14 | the registry starts empty and valid |
| LiveService.RoomService.CreateRoom | src/main/java/de/lbarden/planningpoker/service/RoomService.java:16-21 | exactly one new entry, under the fresh id, holding a new room with the given name; every other room unchanged |
| LiveService.RoomService.GetRoom | src/main/java/de/lbarden/planningpoker/service/RoomService.java:23-25 | returns the room stored under the id, or none exactly when the id is unknown; never fails |
| LiveService.RoomService.AddPlayer | src/main/java/de/lbarden/planningpoker/service/RoomService.java:27-32 | the registry becomes `ApplyAt` of the old one with the player added, keeping the invariant |
| LiveService.RoomService.UpdatePlayerCard | src/main/java/de/lbarden/planningpoker/service/RoomService.java:34-42 | the registry becomes `ApplyAt` of the old one with the card update, keeping the invariant and the set of player objects |
| LiveService.RoomService.RevealCards | src/main/java/de/lbarden/planningpoker/service/RoomService.java:44-49 | the registry becomes `ApplyAt` of the old one with the reveal |
| LiveService.RoomService.ResetRoom | src/main/java/de/lbarden/planningpoker/service/RoomService.java:51-58 | the registry becomes `ApplyAt` of the old one with the reset |
| LiveService.RoomService.StartRoom | src/main/java/de/lbarden/planningpoker/service/RoomService.java:60-65 | the registry becomes `ApplyAt` of the old one with the start |
| LiveService.RoomService.RemovePlayer | src/main/java/de/lbarden/planningpoker/service/RoomService.java:67-72 | the registry becomes `ApplyAt` of the old one with the removal |
| LegacyService.RoomService.constructor | src/main/java/com/example/planningpoker/service/RoomService.java:16 | the registry starts empty and valid |
| LegacyService.RoomService.CreateRoom | src/main/java/com/example/planningpoker/service/RoomService.java:18-23 | exactly one new entry, under the fresh id, holding a new room with the given name stamped `now` |
| LegacyService.RoomService.GetRoom | src/main/java/com/example/planningpoker/service/RoomService.java:25-27 | returns the room stored under the id, or none exactly when the id is unknown |
| LegacyService.RoomService.AddPlayer | src/main/java/com/example/planningpoker/service/RoomService.java:29-35 | the registry becomes `StampedApplyAt` of the old one with the player added |
| LegacyService.RoomService.UpdatePlayerCard | src/main/java/com/example/planningpoker/service/RoomService.java:37-46 | the registry becomes `StampedApplyAt` of the old one with the card update: stamped only when the player exists |
| LegacyService.RoomService.RevealCards | src/main/java/com/example/planningpoker/service/RoomService.java:48-54 | the registry becomes `StampedApplyAt` of the old one with the reveal |
| LegacyService.RoomService.ResetRoom | src/main/java/com/example/planningpoker/service/RoomService.java:56-64 | the registry becomes `StampedApplyAt` of the old one with the reset |
| LegacyService.RoomService.StartRoom | src/main/java/com/example/planningpoker/service/RoomService.java:66-72 | the registry becomes `StampedApplyAt` of the old one with the start |
| LegacyService.RoomService.RemovePlayer | src/main/java/com/example/planningpoker/service/RoomService.java:74-80 | the registry becomes `StampedApplyAt` of the old one with the removal: stamped even for an absent player |
| LegacyService.RoomService.RemoveStaleRoom | src/main/java/com/example/planningpoker/service/RoomService.java:84-96 | the loop removes entries in place, and the registry becomes `ReapStale` of the old one; kept entries hold the same room objects |
| Messages.Destination | src/main/java/de/lbarden/planningpoker/controller/PokerController.java:77 | the topic is the prefix `/topic/room/` followed by the room id |
| Messages.DestinationInjective | src/main/java/com/example/planningpoker/controller/PokerController.java:70 | two rooms share a topic exactly when they are the same room |
| Messages.PokerMessage.constructor | src/main/java/com/example/planningpoker/model/PokerMessage.java:25 | a new message has every reference null and both flags false |
| Messages.PokerMessage.SetType | src/main/java/com/example/planningpoker/model/PokerMessage.java:31-33 | changes the type and no other field |
| Messages.PokerMessage.SetRoomId | src/main/java/com/example/planningpoker/model/PokerMessage.java:37-39 | changes the room id and no other field |
| Messages.PokerMessage.SetPlayerId | src/main/java/com/example/planningpoker/model/PokerMessage.java:43-45 | changes the player id and no other field |
| Messages.PokerMessage.SetPlayers | src/main/java/com/example/planningpoker/model/PokerMessage.java:61-63 | changes the player collection and no other field |
| Messages.PokerMessage.SetRevealed | src/main/java/com/example/planningpoker/model/PokerMessage.java:67-69 | changes `revealed` and no other field |
| Messages.PokerMessage.SetReset | src/main/java/de/lbarden/planningpoker/controller/PokerController.java:73 | changes `reset` and no other field |
| Handling.AssignId | src/main/java/de/lbarden/planningpoker/controller/PokerController.java:41-43 | only a JOIN with a null or empty player id changes, and only its player id; after a JOIN the id is set, and with a non-empty generated id it is not empty |
| Handling.Dispatch | src/main/java/de/lbarden/planningpoker/controller/PokerController.java:38-67 | each type calls its own operation with the message's id, name and card; UPDATE alone calls none |
| Handling.ActionFails | src/main/java/de/lbarden/planningpoker/controller/PokerController.java:38-63 | the action throws exactly for a null type, or for CARD_PLAYED or LEAVE with a null player id (the `get` and `remove` of src/main/java/de/lbarden/planningpoker/service/RoomService.java:37 and :70 on a concurrent map); JOIN, REVEAL, RESET and UPDATE never throw |
| Handling.LiveAct | src/main/java/de/lbarden/planningpoker/controller/PokerController.java:38-67 | the switch keeps the room ids, changes only the addressed room, changes nothing for UPDATE or an unknown room; after JOIN the player is present, after LEAVE absent |
| Handling.LegacyAct | src/main/java/com/example/planningpoker/controller/PokerController.java:33-58 | as the live switch, with the addressed room stamped `now` after JOIN or LEAVE |
| Handling.Reuse | src/main/java/de/lbarden/planningpoker/controller/PokerController.java:70-73 | the reused message becomes UPDATE with the room's players and flags, keeping its room id, player id, name and card |
| Handling.FreshUpdate | src/main/java/de/lbarden/planningpoker/controller/PokerController.java:82-90 | a new message holds type UPDATE, the room id, the room's players and flags, and no player id, name or card; the older handler builds the same value at src/main/java/com/example/planningpoker/controller/PokerController.java:61-66 |
| Handling.LiveHandle | src/main/java/de/lbarden/planningpoker/controller/PokerController.java:29-94 | a null room id throws; an unknown room is dropped with nothing changed; otherwise exactly one UPDATE is sent to the room's topic with the room id; a failing action changes nothing |
| Handling.LegacyHandle | src/main/java/com/example/planningpoker/controller/PokerController.java:26-72 | a null room id or a failing action throws; an unknown room is dropped; otherwise exactly one UPDATE is sent to the room's topic; nothing changes unless something is sent |
| Handling.UnknownRoomIgnored | src/main/java/de/lbarden/planningpoker/controller/PokerController.java:31-35 | in both versions a message for an unknown room changes nothing and sends nothing |
| Handling.JoinAddsPlayer | src/main/java/de/lbarden/planningpoker/controller/PokerController.java:41-45 | JOIN adds a player under the supplied or generated id, with the given name and no card, keeps the other players, and the update lists the new player |
| Handling.ResetSeenBeforeStart | src/main/java/de/lbarden/planningpoker/controller/PokerController.java:72-74 | the update shows `reset` exactly when the message was RESET or the room was already resetting, while the stored room ends with `reset` cleared |
| Handling.BroadcastListsPlayers | src/main/java/de/lbarden/planningpoker/controller/PokerController.java:71 | the update lists the room's players as they are after the action, one entry per player |
| Handling.ReusedMessageCarriesFields | src/main/java/de/lbarden/planningpoker/controller/PokerController.java:69-73 | the update is the inbound message: room id, player name and card carry over, the player id is the assigned one, the type is UPDATE |
| Handling.FailureStillBroadcasts | src/main/java/de/lbarden/planningpoker/controller/PokerController.java:78-93 | a failing action changes nothing, skips `startRoom`, and still sends an update with the room's current players and flags; the older version throws |
| Handling.HandleIdempotent | src/main/java/de/lbarden/planningpoker/controller/PokerController.java:52-59 | handling the same REVEAL, RESET or UPDATE message twice leaves the registry as handling it once |
| Handling.LeaveFallsThrough | src/main/java/com/example/planningpoker/controller/PokerController.java:54-57 | LEAVE falling into `default` removes the player once, stamps the room, clears `reset`, and sends the remaining players |
| Handling.LegacyUpdateSnapshot | src/main/java/com/example/planningpoker/controller/PokerController.java:60-70 | the new update carries only the room id, players and flags as right after the action; the stored room then has `reset` cleared and is stamped |
| Handling.UnstampedApplyAt | src/main/java/com/example/planningpoker/service/RoomService.java:29-80 | stamps aside, one operation does the same to the registry in both versions |
| Handling.UnstampedStart | src/main/java/com/example/planningpoker/service/RoomService.java:66-72 | registries equal up to stamps stay so after `startRoom` |
| Handling.VersionsAgree | src/main/java/com/example/planningpoker/controller/PokerController.java:33-70 | for a message that does not fail, both versions reach the same registry up to stamps and send the same players and flags to the same topic |
| Handling.LiveRun | src/main/java/de/lbarden/planningpoker/controller/PokerController.java:29-94 | a run of messages yields one outcome per message and keeps the set of rooms |
| Handling.SettledStep | src/main/java/de/lbarden/planningpoker/controller/PokerController.java:70-74 | from a registry with no room resetting, one message leaves none resetting, and its update shows `reset` exactly for RESET |
| Handling.ResetVisibleOnce | src/main/java/de/lbarden/planningpoker/controller/PokerController.java:70-74 | over any run of messages from such a registry, every update shows `reset` exactly when its own message was RESET, so a reset is visible in a single broadcast |
| LiveController.PokerController.Join | src/main/java/de/lbarden/planningpoker/controller/PokerController.java:39-47 | the message gets its id assigned, and the registry becomes `ApplyAt` with a new player of that id and name |
| LiveController.PokerController.Act | src/main/java/de/lbarden/planningpoker/controller/PokerController.java:38-67 | the registry becomes the live action of the message; the message changes only by the id assignment |
| LiveController.PokerController.ReuseAsUpdate | src/main/java/de/lbarden/planningpoker/controller/PokerController.java:69-73 | the message becomes the inbound one with type UPDATE and the room's players and flags |
| LiveController.PokerController.ErrorUpdate | src/main/java/de/lbarden/planningpoker/controller/PokerController.java:82-90 | a new message holding only type UPDATE, the room id and the room's players and flags |
| LiveController.PokerController.HandleRoomMessage | src/main/java/de/lbarden/planningpoker/controller/PokerController.java:29-94 | the registry, the outcome and the inbound message end exactly as `LiveHandle` says |
| LegacyController.PokerController.Join | src/main/java/com/example/planningpoker/controller/PokerController.java:34-41 | the message gets its id assigned, and the registry becomes `StampedApplyAt` with a new player of that id and name |
| LegacyController.PokerController.Act | src/main/java/com/example/planningpoker/controller/PokerController.java:33-58 | the registry becomes the older, stamping action of the message; LEAVE removes the player once |
| LegacyController.PokerController.UpdateMessage | src/main/java/com/example/planningpoker/controller/PokerController.java:61-66 | a new message holding only type UPDATE, the room id and the room's players and flags |
| LegacyController.PokerController.Serve | src/main/java/com/example/planningpoker/controller/PokerController.java:33-70 | the action, then the update built from the room, then a stamped `startRoom`; the update shows the room as right after the action |
| LegacyController.PokerController.HandleRoomMessage | src/main/java/com/example/planningpoker/controller/PokerController.java:26-72 | the registry, the outcome and the inbound message end exactly as `LegacyHandle` says |

## Left out

- Concurrency: the `ConcurrentHashMap`s and parallel handlers. Every
  operation is modelled sequentially.
- Transport, Spring and logging:
  - the STOMP template, `@Autowired` and `@Scheduled` timing, and the
    logger and `System.out` calls;
  - `convertAndSend` itself, including any failure of it. A broadcast is the
    returned `Outcome`.
- UUIDs and the clock:
  - `UUID.randomUUID()` is the parameter `freshId`. `CreateRoom` requires it
    not to be a key already.
  - `System.currentTimeMillis()` is the parameter `now`.
  - The older handler reads the clock once per stamp; the model uses one
    `now` for the whole message.
  - The clock being positive or advancing is a property of the clock, not
    of this code.
- Exceptions: only those the code itself provokes are modelled. These are a
  null room id, a null message type, and a null player id used as a map key
  by CARD_PLAYED or LEAVE. No other exception is modelled.
- Null arguments to the services are excluded by their `string` parameter
  types. In Java a null player id does reach `updatePlayerCard` and
  `removePlayer` and throws inside the service; the model's handlers call the
  services only after `Handling.ActionFails` has excluded the null ids on
  which the Java services throw.
- Lombok `hashCode` and `toString`, Jackson annotations, and the Room
  no-argument constructor and its `setId`, `setName` and `setPlayers`
  setters: no core operation uses them.
- The order of `players.values()`: the player collection is modelled as the
  set of player values a client receives.
- The identity of the map's live `values()` view: a message holds a copy of
  the player values.
- LiveService.RoomService.AddPlayer and LegacyService.RoomService.AddPlayer
  require the Player object not to be held by any room already. Java allows
  that sharing, but both controllers always pass a `new Player`.
- Java `long` overflow in `now - lastActivity`: integers are unbounded.
- The live `PokerMessage` class is not part of this model. Its fields (with
  `LEAVE` and `reset`) are inferred from how the live controller uses it.
- The older beans (`model/Room.java`, `model/Player.java`,
  `model/PokerMessage.java` of the older package) are not modelled on their
  own. They lack members the older service and controller call.
- The HTTP `HomeController` and the browser scripts are not modelled.
- Capacity eviction and removal of a room once its last player leaves do not
  exist in the code, so they are not modelled either.
