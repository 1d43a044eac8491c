/** The chat server as a sequential state machine.  The state holds the
    process-wide registries of `ChatServer` (`nicknames`, `clients`,
    `chatRooms`, `nextRoomId`), every ChatRoom object created so far, and the
    progress of every ClientHandler.  One step feeds one read result (a line,
    end of stream, or an I/O error) to one session and returns the new state
    together with the lines written to sockets and history files. */
module Server {
  import opened Optional
  import opened JavaStrings
  import opened Commands
  import opened ChatRoom
  import opened Output

  /** A ChatRoom object, by position in `State.rooms`.  Sessions hold rooms by
      reference, so a room can outlive its registry entry. */
  type RoomRef = nat

  /** Where a ClientHandler is in `run()`.  `Retrying` is the nickname loop
      (its field holds the rejected candidate); `Chatting` is the command loop;
      `Ended` keeps the handler's last `nickname` field (null is None). */
  datatype Phase =
    | AwaitingNickname(anonymous: string)
    | Retrying(candidate: string)
    | Chatting(nickname: string, currentRoom: Option<RoomRef>)
    | Ended(lastNickname: Option<string>)

  /** The result of one `in.readLine()`. */
  datatype Event = Line(text: string) | EndOfStream | ReadError

  datatype State = State(
    nicknames: set<string>,
    clients: map<string, ClientId>,
    chatRooms: map<int, RoomRef>,
    rooms: seq<Room>,
    nextRoomId: int,
    sessions: seq<Phase>)

  datatype Outcome = Outcome(state: State, effects: seq<Effect>)

  /** A connection, or one read result delivered to a session. */
  datatype Input = Connect(anonymousSuffix: string) | Deliver(client: ClientId, event: Event)

  const Initial: State := State({}, map[], map[], [], 1, [])

  const NicknamePrompt: string := "Please enter your nickname: "
  const NicknameInUse: string := "Nickname already in use. Please enter a different nickname: "
  const JoinedRoom: string := "Joined the room."
  const NoSuchRoom: string := "Room ID does not exist."
  const RoomIdMissing: string := "Please enter the room ID."
  const MovedToLobby: string := "Moved to the lobby."
  const NotInRoom: string := "Not currently in a room."
  const UsersHeader: string := "Current users:"
  const RoomUsersHeader: string := "Users in the current room:"
  const RoomsHeader: string := "Current chat rooms:"
  const WhisperUsage: string := "Invalid whisper command. Usage: /whisper [recipient] [message]"
  const InviteUsage: string := "Invalid invite command. Usage: /invite [nickname]"
  const InvitedSentinel: string := "invited"

  function RoomCreatedLine(id: int): string { "Room " + IntToString(id) + " created." }
  function RoomIdLine(id: int): string { "Room ID: " + IntToString(id) }
  function UserNotFoundLine(name: string): string { "User " + name + " not found or not online." }
  function WhisperLine(sender: string, message: string): string { "[Whisper from " + sender + "]: " + message }
  function InviteLine(sender: string): string { "You have been invited to join the room by " + sender }
  function ChatLine(sender: string, text: string): string { sender + ": " + text }

  /** No dangling references: every registry entry, current room and member
      names an object that exists, and the counter is a Java int. */
  predicate WellFormed(s: State) {
    && IsInt32(s.nextRoomId)
    && (forall k :: k in s.chatRooms ==> s.chatRooms[k] < |s.rooms|)
    && (forall c :: 0 <= c < |s.sessions| && s.sessions[c].Chatting? && s.sessions[c].currentRoom.Some?
          ==> s.sessions[c].currentRoom.value < |s.rooms|)
    && (forall r, m :: 0 <= r < |s.rooms| && m in s.rooms[r].members ==> m < |s.sessions|)
  }

  predicate IsChatting(s: State, c: ClientId) {
    c < |s.sessions| && s.sessions[c].Chatting?
  }

  // ------------------------------------------------------------ ChatRoom

  /** `ChatRoom.removeClient`: drop the first occurrence of c from room r and,
      when the list is then empty, remove the room's id from `chatRooms`. */
  function RemoveClient(s: State, r: RoomRef, c: ClientId): (s': State)
    requires WellFormed(s) && r < |s.rooms|
    ensures WellFormed(s')
    ensures |s'.rooms| == |s.rooms| && s'.rooms[r].id == s.rooms[r].id
    ensures s'.rooms[r].members == RemoveFirst(s.rooms[r].members, c)
    ensures forall q :: 0 <= q < |s.rooms| && q != r ==> s'.rooms[q] == s.rooms[q]
    ensures s.rooms[r].id in s'.chatRooms
            <==> s.rooms[r].id in s.chatRooms && s'.rooms[r].members != []
    ensures forall k :: k != s.rooms[r].id ==> (k in s'.chatRooms <==> k in s.chatRooms)
    ensures forall k :: k in s'.chatRooms ==> s'.chatRooms[k] == s.chatRooms[k]
    ensures s'.nicknames == s.nicknames && s'.clients == s.clients
    ensures s'.sessions == s.sessions && s'.nextRoomId == s.nextRoomId
  {
    var members := RemoveFirst(s.rooms[r].members, c);
    s.(rooms := s.rooms[r := s.rooms[r].(members := members)],
       chatRooms := if members == [] then s.chatRooms - {s.rooms[r].id} else s.chatRooms)
  }

  /** `ChatRoom.addClient` on room `target`, then `currentRoom = target`. */
  function AddClient(s: State, c: ClientId, target: RoomRef): (s': State)
    requires WellFormed(s) && IsChatting(s, c) && target < |s.rooms|
    ensures WellFormed(s')
    ensures s'.nextRoomId == s.nextRoomId && |s'.sessions| == |s.sessions|
  {
    s.(rooms := s.rooms[target := s.rooms[target].(members := s.rooms[target].members + [c])],
       sessions := s.sessions[c := Chatting(s.sessions[c].nickname, Some(target))])
  }

  /** The session leaves its current room, if it has one. */
  function LeaveRoom(s: State, c: ClientId): (s': State)
    requires WellFormed(s) && IsChatting(s, c)
    ensures WellFormed(s')
  {
    match s.sessions[c].currentRoom
    case None => s
    case Some(r) => RemoveClient(s, r, c)
  }

  // ------------------------------------------------------------ registration and cleanup

  /** The nickname loop of `ClientHandler.run`: a free candidate is added to `nicknames` and `clients` and
      the session enters the command loop; a taken one is re-prompted. */
  function Offer(s: State, c: ClientId, candidate: string): (o: Outcome)
    requires WellFormed(s) && c < |s.sessions| && !s.sessions[c].Chatting?
    ensures WellFormed(o.state)
    ensures o.state.nextRoomId == s.nextRoomId && |o.state.sessions| == |s.sessions|
  {
    if candidate in s.nicknames then
      Outcome(s.(sessions := s.sessions[c := Retrying(candidate)]), [Send(c, NicknameInUse)])
    else
      Outcome(s.(nicknames := s.nicknames + {candidate},
                 clients := s.clients[candidate := c],
                 sessions := s.sessions[c := Chatting(candidate, None)]), [])
  }

  /** The `finally` block of `ClientHandler.run` for a registered session:
      its nickname leaves `nicknames` and `clients`, and it leaves its room. */
  function Disconnect(s: State, c: ClientId): (s': State)
    requires WellFormed(s) && IsChatting(s, c)
    ensures WellFormed(s')
    ensures s'.nextRoomId == s.nextRoomId && |s'.sessions| == |s.sessions|
  {
    var nick := s.sessions[c].nickname;
    var s1 := s.(nicknames := s.nicknames - {nick},
                 clients := s.clients - {nick},
                 sessions := s.sessions[c := Ended(Some(nick))]);
    match s.sessions[c].currentRoom
    case None => s1
    case Some(r) => RemoveClient(s1, r, c)
  }

  /** The read of a re-prompted nickname ended or failed: the session ends
      and, having registered nothing, leaves both registries alone.  (This
      corrects the source; see AbandonNegotiationAsWritten.) */
  function AbandonNegotiation(s: State, c: ClientId, candidate: string, e: Event): (s': State)
    requires WellFormed(s) && c < |s.sessions| && !s.sessions[c].Chatting? && !e.Line?
    ensures WellFormed(s')
    ensures s'.nicknames == s.nicknames && s'.clients == s.clients
    ensures s'.chatRooms == s.chatRooms && s'.rooms == s.rooms
    ensures |s'.sessions| == |s.sessions| && s'.sessions[c].Ended?
  {
    s.(sessions := s.sessions[c := Ended(if e == ReadError then Some(candidate) else None)])
  }

  // ------------------------------------------------------------ commands

  function NicknameField(s: State, m: ClientId): Option<string> {
    if m >= |s.sessions| then None
    else match s.sessions[m]
      case AwaitingNickname(_) => None
      case Retrying(candidate) => Some(candidate)
      case Chatting(nickname, _) => Some(nickname)
      case Ended(last) => last
  }

  /** `println(String)` prints a null reference as "null". */
  function ShowNickname(n: Option<string>): string {
    match n
    case None => "null"
    case Some(v) => v
  }

  function NicknameLines(s: State, to: ClientId, members: seq<ClientId>): (out: seq<Effect>)
    ensures |out| == |members|
    ensures forall i :: 0 <= i < |members| ==> out[i] == Send(to, ShowNickname(NicknameField(s, members[i])))
  {
    if members == [] then []
    else [Send(to, ShowNickname(NicknameField(s, members[0])))] + NicknameLines(s, to, members[1..])
  }

  /** `joinChatRoom`. */
  function JoinChatRoom(s: State, c: ClientId, line: string): (o: Outcome)
    requires WellFormed(s) && IsChatting(s, c)
    ensures WellFormed(o.state)
    ensures o.state.nextRoomId == s.nextRoomId && |o.state.sessions| == |s.sessions|
  {
    var parts := SplitOnce(line);
    if |parts| == 2 then
      match ParseInt(parts[1])
      // NumberFormatException escapes run(); only the finally block runs
      case None => Outcome(Disconnect(s, c), [])
      case Some(id) =>
        if id in s.chatRooms then
          // the target is looked up before the old room is left
          var target := s.chatRooms[id];
          Outcome(AddClient(LeaveRoom(s, c), c, target), [Send(c, JoinedRoom)])
        else
          Outcome(s, [Send(c, NoSuchRoom)])
    else
      Outcome(s, [Send(c, RoomIdMissing)])
  }

  /** The start of `createChatRoom`: `nextRoomId++` and `chatRooms.put(roomId, new ChatRoom(roomId))`. */
  function AllocateRoom(s: State): (s': State)
    requires WellFormed(s)
    ensures WellFormed(s')
    ensures forall c :: IsChatting(s', c) == IsChatting(s, c)
  {
    s.(rooms := s.rooms + [Room(s.nextRoomId, [])],
       chatRooms := s.chatRooms[s.nextRoomId := |s.rooms|],
       nextRoomId := Increment32(s.nextRoomId))
  }

  /** `createChatRoom`: allocate the counter's value as the
      id, register an empty room under it, report it, then join it. */
  function CreateChatRoom(s: State, c: ClientId): (o: Outcome)
    requires WellFormed(s) && IsChatting(s, c)
    ensures WellFormed(o.state)
    ensures o.state.nextRoomId == Increment32(s.nextRoomId) && |o.state.sessions| == |s.sessions|
  {
    var id := s.nextRoomId;
    var joined := JoinChatRoom(AllocateRoom(s), c, JoinCommand + " " + IntToString(id));
    Outcome(joined.state, [Send(c, RoomCreatedLine(id))] + joined.effects)
  }

  /** `exitChatRoom`. */
  function ExitChatRoom(s: State, c: ClientId): (o: Outcome)
    requires WellFormed(s) && IsChatting(s, c)
    ensures WellFormed(o.state)
    ensures o.state.nextRoomId == s.nextRoomId && |o.state.sessions| == |s.sessions|
  {
    match s.sessions[c].currentRoom
    case None => Outcome(s, [Send(c, NotInRoom)])
    case Some(_) =>
      var s1 := LeaveRoom(s, c);
      Outcome(s1.(sessions := s1.sessions[c := Chatting(s.sessions[c].nickname, None)]), [Send(c, MovedToLobby)])
  }

  /** Distinct ids give distinct "Room ID: " lines. */
  lemma RoomIdLinesDistinct()
    ensures forall a, b :: RoomIdLine(a) == RoomIdLine(b) ==> a == b
  {
    forall a, b | RoomIdLine(a) == RoomIdLine(b) ensures a == b {
      assert IntToString(a) == RoomIdLine(a)[9..];
      assert IntToString(b) == RoomIdLine(b)[9..];
      IntToStringInjective(a, b);
    }
  }

  /** `listChatRooms`: a header, then one line per registered id, all to the
      requester; no two ids share a line, so each id appears exactly once. */
  function ListChatRooms(s: State, c: ClientId): (out: seq<Effect>)
    ensures |out| == 2 && out[0] == Send(c, RoomsHeader) && out[1].SendEach? && out[1].to == c
    ensures forall k :: k in s.chatRooms ==> RoomIdLine(k) in out[1].lines
    ensures forall l :: l in out[1].lines ==> exists k :: k in s.chatRooms && l == RoomIdLine(k)
    ensures forall a, b :: a in s.chatRooms && b in s.chatRooms && RoomIdLine(a) == RoomIdLine(b) ==> a == b
  {
    RoomIdLinesDistinct();
    [Send(c, RoomsHeader), SendEach(c, set k | k in s.chatRooms :: RoomIdLine(k))]
  }

  /** `listUsers`: a header and the registered nicknames, all to the
      requester. */
  function ListUsers(s: State, c: ClientId): (out: seq<Effect>)
    ensures |out| == 2 && out[0] == Send(c, UsersHeader) && out[1].SendEach? && out[1].to == c
    ensures forall n :: n in out[1].lines <==> n in s.nicknames
  {
    [Send(c, UsersHeader), SendEach(c, s.nicknames)]
  }

  /** `listRoomUsers`: everything goes to the requester; in a room it is a
      header and one line per entry of the member list. */
  function ListRoomUsers(s: State, c: ClientId): (out: seq<Effect>)
    requires WellFormed(s) && IsChatting(s, c)
    ensures forall i :: 0 <= i < |out| ==> out[i].Send? && out[i].to == c
    ensures s.sessions[c].currentRoom == None ==> out == [Send(c, NotInRoom)]
    ensures s.sessions[c].currentRoom.Some? ==>
              |out| == |s.rooms[s.sessions[c].currentRoom.value].members| + 1 && out[0] == Send(c, RoomUsersHeader)
  {
    match s.sessions[c].currentRoom
    case None => [Send(c, NotInRoom)]
    case Some(r) => [Send(c, RoomUsersHeader)] + NicknameLines(s, c, s.rooms[r].members)
  }

  /** `sendWhisper`: one line goes out, and if it goes to anyone but the
      sender it is the whisper text, to the session registered under the
      named nickname. */
  function WhisperEffects(s: State, c: ClientId, sender: string, line: string): (out: seq<Effect>)
    ensures |out| == 1 && out[0].Send?
    ensures out[0].to != c ==>
              var parts := SplitTwice(line);
              && |parts| == 3 && parts[1] in s.clients && out[0].to == s.clients[parts[1]]
              && out[0].line == WhisperLine(sender, parts[2])
  {
    var parts := SplitTwice(line);
    if |parts| == 3 then
      var recipient := parts[1];
      if recipient in s.clients then [Send(s.clients[recipient], WhisperLine(sender, parts[2]))]
      else [Send(c, UserNotFoundLine(recipient))]
    else
      [Send(c, WhisperUsage)]
  }

  /** `inviteUser`: one reply to the sender, or the notice followed by the
      `invited` sentinel, both to the session registered under the named
      nickname and to no one else. */
  function InviteEffects(s: State, c: ClientId, sender: string, line: string): (out: seq<Effect>)
    ensures 1 <= |out| <= 2 && forall i :: 0 <= i < |out| ==> out[i].Send?
    ensures forall i :: 0 <= i < |out| && out[i].to != c ==>
              |SplitOnce(line)| == 2 && SplitOnce(line)[1] in s.clients && out[i].to == s.clients[SplitOnce(line)[1]]
    ensures |out| == 2 ==> out[1] == Send(out[0].to, InvitedSentinel) && out[0].line == InviteLine(sender)
  {
    var parts := SplitOnce(line);
    if |parts| == 2 then
      var invitee := parts[1];
      if invitee in s.clients then
        [Send(s.clients[invitee], InviteLine(sender)), Send(s.clients[invitee], InvitedSentinel)]
      else [Send(c, UserNotFoundLine(invitee))]
    else
      [Send(c, InviteUsage)]
  }

  /** The last branch of `processInput`: a plain line goes to the members of
      the current room and then to that room's history, all carrying the same
      text; from the lobby nothing happens. */
  function ChatEffects(s: State, c: ClientId, line: string): (out: seq<Effect>)
    requires WellFormed(s) && IsChatting(s, c)
    ensures out == [] <==> s.sessions[c].currentRoom == None
    ensures s.sessions[c].currentRoom.Some? ==>
              var room := s.rooms[s.sessions[c].currentRoom.value];
              && out[|out| - 1] == AppendHistory(room.id, ChatLine(s.sessions[c].nickname, line))
              && forall i :: 0 <= i < |out| - 1 ==>
                   out[i].Send? && out[i].to in room.members && out[i].line == out[|out| - 1].line
  {
    match s.sessions[c].currentRoom
    case None => []
    case Some(r) =>
      var message := ChatLine(s.sessions[c].nickname, line);
      Broadcast(s.rooms[r].members, message) + [AppendHistory(s.rooms[r].id, message)]
  }

  /** One line in the command loop (the command chain of `ClientHandler.run` and `processInput`). */
  function Dispatch(s: State, c: ClientId, line: string): (o: Outcome)
    requires WellFormed(s) && IsChatting(s, c)
    ensures WellFormed(o.state)
    ensures o.state.nextRoomId == (if Classify(line) == Create then Increment32(s.nextRoomId) else s.nextRoomId)
    ensures |o.state.sessions| == |s.sessions|
  {
    Perform(s, c, Classify(line), line)
  }

  /** The handler the command chain picks for a line of kind `cmd`. */
  function Perform(s: State, c: ClientId, cmd: Command, line: string): (o: Outcome)
    requires WellFormed(s) && IsChatting(s, c)
    ensures WellFormed(o.state)
    ensures o.state.nextRoomId == (if cmd == Create then Increment32(s.nextRoomId) else s.nextRoomId)
    ensures |o.state.sessions| == |s.sessions|
  {
    var nick := s.sessions[c].nickname;
    match cmd
    case Bye => Outcome(Disconnect(s, c), [])
    case Users => Outcome(s, ListUsers(s, c))
    case RoomUsers => Outcome(s, ListRoomUsers(s, c))
    case Whisper => Outcome(s, WhisperEffects(s, c, nick, line))
    case Invite => Outcome(s, InviteEffects(s, c, nick, line))
    case Create => CreateChatRoom(s, c)
    case ListRooms => Outcome(s, ListChatRooms(s, c))
    case Join => JoinChatRoom(s, c, line)
    case ExitRoom => ExitChatRoom(s, c)
    case Chat => Outcome(s, ChatEffects(s, c, line))
  }

  // ------------------------------------------------------------ sessions

  /** `ServerSocket.accept` and the first line of `run()`: a new session,
      holding the anonymous name it will use if its first answer is blank. */
  function Accept(s: State, anonymousSuffix: string): (o: Outcome)
    requires WellFormed(s)
    ensures WellFormed(o.state)
    ensures |o.state.sessions| == |s.sessions| + 1
    ensures o.state.sessions[|s.sessions|] == AwaitingNickname("Anonymous" + anonymousSuffix)
    ensures o.effects == [Send(|s.sessions|, NicknamePrompt)]
  {
    Outcome(s.(sessions := s.sessions + [AwaitingNickname("Anonymous" + anonymousSuffix)]),
            [Send(|s.sessions|, NicknamePrompt)])
  }

  /** One read result delivered to session c. */
  function Step(s: State, c: ClientId, e: Event): (o: Outcome)
    requires WellFormed(s)
    ensures WellFormed(o.state)
    ensures o.state.nextRoomId == s.nextRoomId || o.state.nextRoomId == Increment32(s.nextRoomId)
    ensures |o.state.sessions| == |s.sessions|
  {
    if c >= |s.sessions| then Outcome(s, [])
    else match s.sessions[c]
      case Ended(_) => Outcome(s, [])
      case AwaitingNickname(anonymous) => FirstAnswer(s, c, anonymous, e)
      case Retrying(candidate) => RetryAnswer(s, c, candidate, e)
      case Chatting(_, _) =>
        (match e
         case Line(text) => Dispatch(s, c, text)
         case _ => Outcome(Disconnect(s, c), []))
  }

  /** `ClientHandler.run`: the first answer to the nickname prompt. */
  function FirstAnswer(s: State, c: ClientId, anonymous: string, e: Event): (o: Outcome)
    requires WellFormed(s) && c < |s.sessions| && s.sessions[c].AwaitingNickname?
    ensures WellFormed(o.state)
    ensures o.state.nextRoomId == s.nextRoomId && |o.state.sessions| == |s.sessions|
  {
    match e
    case Line(text) => Offer(s, c, if Blank(text) then anonymous else text)
    case EndOfStream =>
      // a null first answer becomes the anonymous name; the next read
      // sees the same end of stream
      var o := Offer(s, c, anonymous);
      if o.state.sessions[c].Chatting? then Outcome(Disconnect(o.state, c), o.effects)
      else Outcome(AbandonNegotiation(o.state, c, anonymous, e), o.effects)
    // the exception leaves the nickname field null: nothing to clean up
    case ReadError => Outcome(s.(sessions := s.sessions[c := Ended(None)]), [])
  }

  /** `ClientHandler.run`: the answer after "Nickname already in use". */
  function RetryAnswer(s: State, c: ClientId, candidate: string, e: Event): (o: Outcome)
    requires WellFormed(s) && c < |s.sessions| && s.sessions[c].Retrying?
    ensures WellFormed(o.state)
    ensures o.state.nextRoomId == s.nextRoomId && |o.state.sessions| == |s.sessions|
  {
    match e
    case Line(text) => Offer(s, c, text)
    case _ => Outcome(AbandonNegotiation(s, c, candidate, e), [])
  }

  function Apply(s: State, i: Input): (o: Outcome)
    requires WellFormed(s)
    ensures WellFormed(o.state)
  {
    match i
    case Connect(suffix) => Accept(s, suffix)
    case Deliver(c, e) => Step(s, c, e)
  }

  /** The state after a sequence of inputs. */
  function Run(s: State, inputs: seq<Input>): (s': State)
    requires WellFormed(s)
    ensures WellFormed(s')
    decreases |inputs|
  {
    if inputs == [] then s else Run(Apply(s, inputs[0]).state, inputs[1..])
  }
}
