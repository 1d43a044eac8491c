# Chat server model

A Dafny model of the server side of a small line-oriented chat system
(`ChatServer.java`). Clients connect, negotiate a unique nickname, and then
send lines that are either commands — `/bye`, `/users`, `/roomusers`,
`/whisper`, `/invite`, `/create`, `/list`, `/join`, `/exit` — or chat text
for the room they are in. Rooms are numbered from a global counter. A room
drops out of the room registry when its last member leaves.

The server is modelled as a sequential state machine. `Server.State` holds:

- the nickname set and the nickname-to-client map;
- the room registry (`chatRooms`, id to room object);
- every room object ever created (`rooms`, addressed by `RoomRef`);
- the room counter (a Java `int`);
- one `Phase` per connection: awaiting the first nickname, re-prompted after
  a taken one, chatting (with nickname and current room), or ended.

`Server.Step` delivers one read result to one session: a line, end of stream
or a read error. It returns the next state and the effects produced. An
effect is a line sent to a client, an unordered batch of lines (one per
element of a `HashMap` key set), or a line appended to a room's history file.
`Server.Run` folds a sequence of connections and deliveries.

Room objects are kept by reference, not by id, because `currentRoom` in the
source is an object reference. This matters for `/join N` sent by the only
member of room N. `removeClient` deregisters the room, and `addClient` then
adds the client back into the deregistered object. The session ends up in a
room that `/list` no longer shows (`ServerProperties.RejoinAlone`).

Modules:

- `Optional` — the option type.
- `JavaStrings` — the Java semantics the handlers rely on:
  - `split("\\s+", n)` for n = 2 and 3;
  - `Integer.parseInt` (ASCII digits, optional sign, 32-bit range);
  - decimal rendering of ints;
  - `trim().isEmpty()`;
  - `int` increment with wrap-around.
- `Commands` — the `if`/`else` chain of `run()` and `processInput` as one
  classification of a line.
- `ChatRoom` — member lists and `List.remove(Object)`.
- `Output` — effects and room broadcast.
- `Server` — the state, every handler, and `Step`/`Run`.
- `ServerInvariants` — the registry/room/membership invariant, and its
  preservation by every step.
- `ServerProperties` — per-command behaviour stated against the invariant.
- `NegotiationAsWritten` — the nickname re-prompt as written (see Findings).
- `Scenarios` — a concrete run: create, join, leave, then a late `/join`.

Behaviours of the code worth knowing:

- An invitation never moves anyone. The client answers the `invited`
  sentinel with a bare `/join`, and the server replies "Please enter the
  room ID." (`ServerProperties.JoinWithoutId`; `ChatClient.java:49-52`).
- `/create`, `/list` and `/join` are accepted in a room as well as in the
  lobby.
- A chat line sent from the lobby is dropped silently
  (`ServerProperties.ChatInLobby`).
- `/bye` ends the session and `/exit` leaves the room.
- `/join` followed by text that is not an int throws
  `NumberFormatException`. The exception ends the session, and the
  `finally` block cleans up (`ServerProperties.JoinMalformedId`).
- A room object can be non-empty yet unregistered (the `/join N` case
  above). So "registered iff non-empty" holds only one way: every
  registered room has members (`ServerInvariants.NonEmptyExcept`).
- The counter wraps from 2147483647 to -2147483648
  (`ServerProperties.CreateAtCounterLimit`). Below that bound, ids are never
  reused (`ServerInvariants.RoomIdsDistinct`).

## Model

| member | source | states |
|---|---|---|
| JavaStrings.Increment32IsModular | ChatServer.java:126 | `nextRoomId++` is addition of one modulo 2^32 read back as an int; it differs from n + 1 exactly at Integer.MAX_VALUE |
| JavaStrings.Increment32 | ChatServer.java:126 | `nextRoomId++` stays an int and is n + 1, except at Integer.MAX_VALUE, where it becomes Integer.MIN_VALUE |
| JavaStrings.SplitOnce | ChatServer.java:141 | `split("\\s+", 2)` gives one part iff the line has no whitespace (the part is the line); otherwise a whitespace-free head, a whitespace run, and a tail not starting with whitespace that rejoin to the line |
| JavaStrings.SplitTwice | ChatServer.java:189 | `split("\\s+", 3)` gives three parts exactly when the two-way split has a tail that still contains whitespace, and then as head, non-empty second word and tail separated by two whitespace runs that rejoin to the line; with fewer parts it agrees with the two-way split |
| JavaStrings.SplitOnceJoined | ChatServer.java:130 | a command word and an argument joined by one space split back into exactly those two parts |
| JavaStrings.ParseInt | ChatServer.java:143 | `Integer.parseInt` yields only 32-bit values and rejects the empty string and text not starting with a digit or sign |
| JavaStrings.ParseIntRejectsNonDigit | ChatServer.java:143 | a non-digit anywhere after the first character makes parseInt throw, so `/join 1x` and `/join 1 2` are malformed |
| JavaStrings.ParseIntDigits | ChatServer.java:143 | an unsigned, `+`-signed or `-`-signed numeral, leading zeros allowed (`007`, `+7`), parses to its value (negated after `-`) when that fits in an int; a numeral of either sign outside the int range, and a lone `-` or `+`, throws |
| JavaStrings.BlankIsTrimEmpty | ChatServer.java:57 | the blank test holds exactly when `trim()`, which drops leading and trailing characters at or below U+0020, leaves the empty string |
| JavaStrings.IntToString | ChatServer.java:129-130 | an int's decimal text is non-empty and has no whitespace, so it stays one token after a split |
| JavaStrings.IntToStringInjective | ChatServer.java:137 | distinct ints print as distinct decimal texts |
| JavaStrings.NatToStringValue | ChatServer.java:129 | the decimal digits written for a number evaluate back to that number |
| JavaStrings.ParseIntToString | ChatServer.java:130-143 | parsing the decimal text of any int gives back that int, so the `/join` line built by createChatRoom names the new id |
| Commands.ClassifyExact | ChatServer.java:73-116 | each command kind is chosen iff the line equals its word (`/bye`, `/users`, `/roomusers`, `/list`, `/exit`) or starts with it (`/whisper`, `/invite`, `/create`, `/join`); the order of the tests never matters |
| Commands.ClassifyWords | ChatServer.java:7-13 | each of the six words `/bye`, `/users`, `/roomusers`, `/list`, `/exit` and `/create` on its own selects its own handler |
| Commands.ClassifyArgumentWords | ChatServer.java:10-15 | the bare words `/whisper`, `/invite` and `/join` also select their own handlers, which then answer with usage text or the room-id prompt |
| Commands.Classify | ChatServer.java:106-122 | a line is chat text for the current room exactly when it is none of the exact command words and starts with none of the prefix command words |
| ChatRoom.RemoveFirst | ChatServer.java:253 | `List.remove(Object)` leaves a list without the client unchanged, shortens one with it by exactly one, and adds no one |
| ChatRoom.RemoveFirstMultiset | ChatServer.java:253 | exactly one occurrence of the client is removed |
| ChatRoom.RemoveFirstCutsFirst | ChatServer.java:253 | the occurrence removed is the first one, and the remaining members keep their order |
| ChatRoom.RemoveFirstNoDup | ChatServer.java:253 | on a duplicate-free list the result is duplicate-free and holds exactly the old members other than the client |
| ChatRoom.AddClientKeepsNoDup | ChatServer.java:249 | appending a client not yet in the list keeps it duplicate-free |
| Output.Broadcast | ChatServer.java:260-264 | one send per member, in list order, each carrying the message |
| Output.BroadcastReachesEachMemberOnce | ChatServer.java:260-264 | with distinct members, every member receives the message exactly once and no one else receives it |
| Output.BroadcastThenRecord | ChatServer.java:119-120 | appending the history record after the broadcast adds no delivery |
| Server.RemoveClient | ChatServer.java:252-258 | the room loses the first occurrence of the client; its id stays registered iff it was registered and the list is still non-empty; no other room, id, registry or session changes |
| Server.AddClient | ChatServer.java:149-150 | entering a room keeps every reference valid and leaves the counter and session count alone |
| Server.LeaveRoom | ChatServer.java:146-148 | leaving the current room, if any, keeps every reference valid |
| Server.Offer | ChatServer.java:60-68 | registering or re-prompting keeps every reference valid and leaves the counter and the session count alone (what it registers is stated by ServerProperties.Registration) |
| Server.Disconnect | ChatServer.java:89-97 | the finally block keeps every reference valid and does not touch the counter or the session count |
| Server.AbandonNegotiation | ChatServer.java:61-64 | a re-prompted session whose read ends or fails is ended and leaves the nickname registries, the room registry and the rooms unchanged (corrected behaviour) |
| Server.NicknameLines | ChatServer.java:180-182 | one line per member, in member order, each that member's nickname field (`null` printed as "null") |
| Server.ListChatRooms | ChatServer.java:133-138 | a header, then, to the requester only, a batch holding a line for every registered id and only such lines; no two ids print the same line, so each id appears once |
| Server.ListUsers | ChatServer.java:170-175 | a header, then, to the requester only, a batch holding exactly the registered nicknames |
| Server.ListRoomUsers | ChatServer.java:177-186 | every line goes to the requester; from the lobby the only line is "Not currently in a room."; in a room a header and one line per entry of the member list |
| Server.WhisperEffects | ChatServer.java:188-202 | exactly one line goes out; if it goes to anyone but the sender, it is the whisper text and goes to the session registered under the named recipient |
| Server.InviteEffects | ChatServer.java:204-218 | one or two lines go out; any line not for the sender goes to the session registered under the named invitee, and a two-line answer is the invitation notice followed by the `invited` sentinel to the same session |
| Server.ChatEffects | ChatServer.java:117-121 | from the lobby nothing happens; in a room the batch ends with the history record for that room, and every line before it goes to a member of the room and carries the same text |
| Server.JoinChatRoom | ChatServer.java:140-158 | joining keeps every reference valid and never moves the counter |
| Server.AllocateRoom | ChatServer.java:126-128 | allocating a room leaves which sessions are chatting unchanged |
| Server.CreateChatRoom | ChatServer.java:125-131 | `/create` advances the counter by exactly one Java int increment |
| Server.ExitChatRoom | ChatServer.java:160-168 | leaving a room keeps every reference valid and never moves the counter |
| Server.Dispatch | ChatServer.java:72-86 | one line of the command loop advances the counter iff it is a create command |
| Server.Perform | ChatServer.java:106-123 | only the create handler moves the counter, and no handler adds or removes sessions |
| Server.Accept | ChatServer.java:52-55 | a new connection is a new session awaiting its nickname, holding the anonymous fallback name, and is sent the prompt |
| Server.FirstAnswer | ChatServer.java:55-59 | the first nickname answer never touches the counter or the session count |
| Server.RetryAnswer | ChatServer.java:61-64 | a re-prompted answer never touches the counter or the session count |
| Server.Step | ChatServer.java:50-104 | a delivered read leaves the counter unchanged or advanced by one Java increment, and keeps the session count |
| Server.Run | ChatServer.java:27-32 | every reachable state has valid references |
| ServerInvariants.InitialInv | ChatServer.java:18-21 | the empty registries and a counter of 1 satisfy the invariant |
| ServerInvariants.KeysBelowCounter | ChatServer.java:126-128 | every registered id lies between 1 and the counter, exclusive of the counter |
| ServerInvariants.RoomIdsDistinct | ChatServer.java:126-127 | no two room objects ever created share an id |
| ServerInvariants.RemoveClientMembers | ChatServer.java:253 | after removeClient a duplicate-free room holds exactly its old members other than the client |
| ServerInvariants.LeaveFrame | ChatServer.java:146-148 | leaving a room changes neither the sessions, the registries, the counter nor room ids, and deregisters no id except possibly that room's; it adds and re-points none |
| ServerInvariants.LeaveMembership | ChatServer.java:146-148 | after leaving, the client is in no member list, every other member still points at its room, and the lists stay duplicate-free |
| ServerInvariants.DisconnectPreservesInv | ChatServer.java:89-97 | the finally block keeps the invariant |
| ServerInvariants.ExitPreservesInv | ChatServer.java:160-168 | `/exit` keeps the invariant |
| ServerInvariants.EnterPreservesInv | ChatServer.java:146-150 | leaving one room and entering another, even the one registered room still empty, keeps the invariant |
| ServerInvariants.JoinPreservesInv | ChatServer.java:140-158 | every `/join` outcome keeps the invariant |
| ServerInvariants.JoinLineNamesId | ChatServer.java:130-143 | the line createChatRoom passes to joinChatRoom splits into two parts whose argument parses to the new id |
| ServerInvariants.AllocateFacts | ChatServer.java:126-128 | a new id is fresh among registered ids and among all room objects; it is registered for one new empty room; the counter rises by one |
| ServerInvariants.CreatePreservesInv | ChatServer.java:125-131 | `/create` keeps the invariant |
| ServerInvariants.OfferPreservesInv | ChatServer.java:60-68 | registering or re-prompting keeps the invariant, so nicknames stay unique across sessions |
| ServerInvariants.AcceptPreservesInv | ChatServer.java:28-31 | a new connection keeps the invariant |
| ServerInvariants.DispatchPreservesInv | ChatServer.java:72-86 | every command keeps the invariant; only `/create` needs the counter below Integer.MAX_VALUE |
| ServerInvariants.StepPreservesInv | ChatServer.java:50-104 | every delivered read keeps the invariant; only a create command needs the counter below Integer.MAX_VALUE |
| ServerInvariants.RunPreservesInv | ChatServer.java:27-32 | every run from an invariant state keeps it, and the counter rises by at most one per input |
| ServerProperties.DisconnectFacts | ChatServer.java:89-97 | cleanup removes the nickname from both registries, the client from every room, and the room's id iff the client was its last member; no other session, no other client's room membership and no registered id outside the sender's old room changes, and no id is added |
| ServerProperties.LeftRoomDeregistered | ChatServer.java:252-258 | the room's id stays registered after the client leaves iff the client was not its only member |
| ServerProperties.LeaveUntouched | ChatServer.java:146-148 | leaving a room changes no other session and no other client's membership, adds no id, and can deregister only the own room's id |
| ServerProperties.EnterFacts | ChatServer.java:146-151 | after a switch the client is last in the target room's list and in no other; all other sessions and the registries are unchanged; no id is added, every id outside the old room stays, and the old room's id stays iff others remain there |
| ServerProperties.EnterIds | ChatServer.java:146-150 | switching rooms registers no id, keeps every id outside the old room, and deregisters the old room's id iff the session was its last member |
| ServerProperties.JoinRegistered | ChatServer.java:140-151 | the line built from a registered id joins that id's room and replies "Joined the room." |
| ServerProperties.CreatedRoomHoldsCreator | ChatServer.java:126-130 | the new room is registered under the counter's value and holds exactly its creator, whose current room it becomes |
| ServerProperties.CreateFacts | ChatServer.java:125-131 | createChatRoom replies "Room N created." then "Joined the room."; N was unused, and room N now holds only the creator |
| ServerProperties.CreateOutcome | ChatServer.java:108-109 | any line starting with `/create` creates a fresh room holding only the sender and reports it |
| ServerProperties.JoinWithoutId | ChatServer.java:155-156 | `/join` without an argument asks for the room id and changes nothing |
| ServerProperties.JoinUnknownId | ChatServer.java:152-153 | `/join` with an unregistered id replies "Room ID does not exist." and changes nothing |
| ServerProperties.JoinMalformedId | ChatServer.java:143 | a non-numeric id ends the session with full cleanup and no reply: both registries lose the nickname, the client is in no room, the old room's id survives iff others remain; no other session, no other client's room membership and no registered id outside the sender's old room changes, and no id is added |
| ServerProperties.JoinExisting | ChatServer.java:140-151 | joining a registered room makes the sender its last member, removes it from every other room, and changes no other session; no id is added, every id outside the old room stays, and the old room's id stays iff others remain there |
| ServerProperties.RejoinAlone | ChatServer.java:146-150 | the sole member of room N who sends `/join N` stays in the room object, but N is no longer registered |
| ServerProperties.EmptiedByLeaving | ChatServer.java:252-256 | the last member leaving empties the room and deregisters its id |
| ServerProperties.ExitFromRoom | ChatServer.java:160-164 | `/exit` puts the sender in the lobby and in no room; the room's id survives iff others remain; other ids and the registries are untouched; no other session, no other client's room membership and no registered id outside the sender's old room changes, and no id is added |
| ServerProperties.ExitFromLobby | ChatServer.java:165-166 | `/exit` in the lobby replies "Not currently in a room." and changes nothing |
| ServerProperties.ChatInRoom | ChatServer.java:117-121 | a chat line reaches every member of the sender's room exactly once, the sender included, and no one else; it is then recorded in that room's history; the state does not change |
| ServerProperties.ChatInLobby | ChatServer.java:118 | a chat line from the lobby produces nothing |
| ServerProperties.WhisperRouting | ChatServer.java:188-202 | a whisper goes only to the session registered under the named nickname; otherwise a not-found or usage reply goes to the sender |
| ServerProperties.InviteRouting | ChatServer.java:204-218 | an invite sends the notice and the `invited` sentinel only to the named session; otherwise a not-found or usage reply goes to the sender |
| ServerProperties.ListingsOnlyReport | ChatServer.java:133-186 | `/users`, `/roomusers` and `/list` change nothing, and every line and every batch they write goes to the sender |
| ServerProperties.ListNamesEveryRoom | ChatServer.java:133-138 | `/list` reports the header and each registered id once |
| ServerProperties.UsersListsChattingSessions | ChatServer.java:170-175 | `/users` lists exactly the nicknames of the sessions past negotiation |
| ServerProperties.RoomUsersListsMembers | ChatServer.java:177-186 | `/roomusers` lists each member's nickname in list order, the sender's own included, or replies "Not currently in a room." |
| ServerProperties.RoomUsersLines | ChatServer.java:177-183 | in a room the listing has one line per member after the header, each the nickname of a chatting session, the requester's own among them |
| ServerProperties.Registration | ChatServer.java:56-68 | a taken nickname (a blank first answer counts as the anonymous name) re-prompts; a free one is registered and is no other session's name, and no other session, room or registered id changes |
| ServerProperties.DisconnectCleanup | ChatServer.java:72-97 | `/bye`, end of stream and a read error all run the same cleanup and keep the invariant; no other session, no other client's room membership and no registered id outside the sender's old room changes, and no id is added |
| ServerProperties.FirstAnswerFails | ChatServer.java:56-97 | when the first read fails, or ends while the anonymous name is free, the session ends and the registries, the rooms and every other session are as before; when it ends while the anonymous name is taken, it states the corrected ending (see Findings: the source registers null there); only that case writes a line (the re-prompt); the invariant holds |
| ServerProperties.AbandonedNegotiation | ChatServer.java:61-64 | corrected: a re-prompted session whose read ends or fails ends without touching any registry or room |
| ServerProperties.CreateAtCounterLimit | ChatServer.java:126 | at Integer.MAX_VALUE the next id wraps to Integer.MIN_VALUE |
| NegotiationAsWritten.AbandonNegotiationAsWritten | ChatServer.java:61-64 | as written: a read error unregisters the candidate; end of stream registers null, or loops forever if null is already registered |
| NegotiationAsWritten.ReadErrorUnregistersOwner | ChatServer.java:61-64 | a read error while re-prompted removes the nickname of a different, still connected session |
| NegotiationAsWritten.EndOfStreamRegistersNull | ChatServer.java:61-65 | end of stream while re-prompted registers null as a nickname |
| NegotiationAsWritten.FirstEndOfStreamRegistersNull | ChatServer.java:56-68 | as written: when the first read ends and the anonymous name is taken, the re-prompted read ends too and null is registered, while the corrected step leaves `nicknames` as it was |
| NegotiationAsWritten.SecondEndOfStreamSpins | ChatServer.java:61-64 | once null is registered, a further end of stream while re-prompted never leaves the loop |
| Scenarios.RoomGoneAfterEveryoneLeaves | ChatServer.java:125-168 | after alice creates room 1, bob joins it and both `/exit`, room 1 is unregistered, and a third user's `/join 1` gets "Room ID does not exist." |

## Left out

- Sockets, threads and locking. The model interleaves sessions one read at
  a time, each step atomic. Lost updates between unsynchronised threads on
  the `HashMap`s are not modelled.
- Console and stderr logging (lines 26, 29, 34, 67, 88, 93, 101, 227, 256)
  produce no effect.
- `UUID.randomUUID()` (line 58). The eight-character suffix is a parameter
  of `Server.Accept`.
- `HashMap`/`HashSet` iteration order in `/list` and `/users`. The lines go
  out as one unordered `SendEach` batch.
- The history file. `saveChatHistory` is an `AppendHistory` effect, and a
  failed write (lines 226-227) is not modelled.
- `createChatHistoryDirectory`, `main`, the port and `socket.close()`.
  None of them changes the modelled state.
- `ChatClient.java` is not part of this model. Only its reply to the
  `invited` sentinel is used, as an explanation.
- JavaStrings.ParseInt: accepts ASCII digits only. Java also accepts other
  Unicode decimal digits.
- ServerInvariants.StepPreservesInv: for a create command, requires the
  counter below Integer.MAX_VALUE. At the limit the next id wraps to a
  negative value, which the invariant's id bookkeeping does not cover
  (`ServerProperties.CreateAtCounterLimit` states the wrap itself).
- ServerInvariants.DispatchPreservesInv: the same bound, for `/create` only.
- ServerInvariants.RunPreservesInv: requires the counter to stay below
  Integer.MAX_VALUE for the whole run, one step per input.
- ServerInvariants.AllocateFacts: requires the counter below
  Integer.MAX_VALUE, for the same reason; at the limit the wrapped id need
  not be fresh.
- ServerInvariants.CreatePreservesInv: requires the counter below
  Integer.MAX_VALUE, for the same reason.
- ServerProperties.CreateFacts: requires the counter below
  Integer.MAX_VALUE, for the same reason.
- ServerProperties.CreatedRoomHoldsCreator: requires the counter below
  Integer.MAX_VALUE, for the same reason.
- ServerProperties.CreateOutcome: requires the counter below
  Integer.MAX_VALUE, for the same reason.
- ServerProperties.FirstAnswerFails: for end of stream at the first prompt
  while the anonymous name is taken, states the corrected ending, not the
  source's registration of null (the Findings row covers it).
- NegotiationAsWritten.SecondEndOfStreamSpins: does not model that the
  spinning loop holds the `nicknames` lock, which blocks every later
  registration.

## Findings

| source | as written | input that shows it | evidently intended | confidence | as-written member | corrected member |
|---|---|---|---|---|---|---|
| ChatServer.java:61-64, 90-92 | a re-prompted session's next `readLine()` result goes straight into `nickname`; a read error leaves the rejected (taken) candidate there, and end of stream stores null | "bob" is registered; a second client offers "bob", is re-prompted, and its connection fails or closes; or a client's connection closes at the first prompt while its generated anonymous name is taken | the session ends without registering or unregistering anything | not executed | NegotiationAsWritten.AbandonNegotiationAsWritten | Server.AbandonNegotiation |

Consequences of the as-written code:

- On a read error, the finally block removes "bob" from `nicknames` and
  `clients` while the first "bob" is still connected
  (`NegotiationAsWritten.ReadErrorUnregistersOwner`).
- On end of stream, null passes the `contains` test and is added as a
  nickname. The command loop then reads end of stream, and cleanup is
  skipped because the nickname is null
  (`NegotiationAsWritten.EndOfStreamRegistersNull`).
- The same happens when the first read ends and the generated anonymous
  name is taken (`NegotiationAsWritten.FirstEndOfStreamRegistersNull`).
- A later session in the same situation loops forever
  (`NegotiationAsWritten.SecondEndOfStreamSpins`).

The corrected behaviour is the one `Server.Step` uses. It is proved to keep
the invariant in `ServerProperties.AbandonedNegotiation`.
