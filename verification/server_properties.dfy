/** What each command does to the registries and whom its output reaches,
    stated against the invariant of ServerInvariants. */
module ServerProperties {
  import opened Optional
  import opened JavaStrings
  import opened Commands
  import opened ChatRoom
  import opened Output
  import opened Server
  import opened ServerInvariants

  /** A line from a registered session goes to the command dispatcher. */
  lemma StepDispatches(s: State, c: ClientId, line: string)
    requires WellFormed(s) && IsChatting(s, c)
    ensures Step(s, c, Line(line)) == Dispatch(s, c, line) == Perform(s, c, Classify(line), line)
  {
  }

  /** The id of the room session c is in, if it is in one. */
  function OwnRoomIds(s: State, c: ClientId): set<int>
    requires WellFormed(s) && IsChatting(s, c)
  {
    match s.sessions[c].currentRoom
    case None => {}
    case Some(r) => {s.rooms[r].id}
  }

  /** What an operation of session c leaves alone when it takes c out of its
      room: every other session, every other client's membership of every
      room, and every registered id except that of c's own room; no id is
      added or re-pointed. */
  ghost predicate Untouched(s: State, t: State, c: ClientId)
    requires WellFormed(s) && IsChatting(s, c)
  {
    && |t.sessions| == |s.sessions| && |t.rooms| == |s.rooms|
    && (forall d :: 0 <= d < |s.sessions| && d != c ==> t.sessions[d] == s.sessions[d])
    && (forall q, m :: 0 <= q < |s.rooms| && m != c ==> (m in t.rooms[q].members <==> m in s.rooms[q].members))
    && (forall k :: k in t.chatRooms ==> k in s.chatRooms && t.chatRooms[k] == s.chatRooms[k])
    && (forall k :: k in s.chatRooms && k !in OwnRoomIds(s, c) ==> k in t.chatRooms)
  }

  lemma LeaveUntouched(s: State, c: ClientId)
    requires WellFormed(s) && IsChatting(s, c) && Membership(s)
    ensures Untouched(s, LeaveRoom(s, c), c)
  {
    LeaveFrame(s, c);
    match s.sessions[c].currentRoom {
      case None =>
      case Some(r) =>
        RemoveClientMembers(s, r, c);
        assert LeaveRoom(s, c) == RemoveClient(s, r, c);
    }
  }

  /** Changing only the registries and c's own phase keeps the frame. */
  lemma UntouchedOwnPhase(s: State, l: State, c: ClientId, p: Phase, nicknames: set<string>, clients: map<string, ClientId>)
    requires WellFormed(s) && IsChatting(s, c) && Untouched(s, l, c)
    ensures Untouched(s, l.(nicknames := nicknames, clients := clients, sessions := l.sessions[c := p]), c)
  {
  }

  /** What the finally block does to a registered session. */
  lemma DisconnectFacts(s: State, c: ClientId)
    requires Inv(s) && IsChatting(s, c)
    ensures var d := Disconnect(s, c);
      var nick := s.sessions[c].nickname;
      && d.sessions[c] == Ended(Some(nick))
      && d.nicknames == s.nicknames - {nick}
      && d.clients == s.clients - {nick}
      && (forall r :: 0 <= r < |d.rooms| ==> c !in d.rooms[r].members)
      && (forall r :: s.sessions[c].currentRoom == Some(r) ==>
            (s.rooms[r].id in d.chatRooms <==> s.rooms[r].id in s.chatRooms && s.rooms[r].members != [c]))
      && Untouched(s, d, c)
      && Inv(d)
  {
    DisconnectPreservesInv(s, c);
    LeaveFrame(s, c);
    LeaveMembership(s, c);
    var nick := s.sessions[c].nickname;
    var l := LeaveRoom(s, c);
    assert Disconnect(s, c) == l.(nicknames := l.nicknames - {nick}, clients := l.clients - {nick},
                                   sessions := l.sessions[c := Ended(Some(nick))]);
    LeaveUntouched(s, c);
    UntouchedOwnPhase(s, l, c, Ended(Some(nick)), l.nicknames - {nick}, l.clients - {nick});
    match s.sessions[c].currentRoom {
      case None =>
      case Some(r) => LeftRoomDeregistered(s, c, r);
    }
  }

  /** Removing a session from its room deregisters the room's id exactly when
      the session was the last member. */
  lemma LeftRoomDeregistered(s: State, c: ClientId, r: RoomRef)
    requires WellFormed(s) && Membership(s) && IsChatting(s, c) && s.sessions[c].currentRoom == Some(r)
    ensures s.rooms[r].id in RemoveClient(s, r, c).chatRooms
            <==> s.rooms[r].id in s.chatRooms && s.rooms[r].members != [c]
  {
    var members := s.rooms[r].members;
    assert c in members;
    var after := RemoveFirst(members, c);
    if after == [] {
      assert members == [c] by {
        assert |members| == 1;
        assert members[0] == c;
      }
    } else {
      assert members != [c];
    }
  }

  /** Joining room t: the session leaves its old room (if any) and is
      appended to t, which becomes its current room. */
  lemma EnterFacts(s: State, c: ClientId, t: RoomRef)
    requires InvExcept(s, t) && IsChatting(s, c) && t < |s.rooms|
    ensures var a := AddClient(LeaveRoom(s, c), c, t);
      && a.sessions[c] == Chatting(s.sessions[c].nickname, Some(t))
      && (forall d :: 0 <= d < |s.sessions| && d != c ==> a.sessions[d] == s.sessions[d])
      && a.nicknames == s.nicknames && a.clients == s.clients
      && |a.rooms| == |s.rooms|
      && a.rooms[t].id == s.rooms[t].id
      && a.rooms[t].members == RemoveFirst(s.rooms[t].members, c) + [c]
      && (forall m :: m in a.rooms[t].members <==> m in s.rooms[t].members || m == c)
      && (forall r, m :: 0 <= r < |s.rooms| && r != t
            ==> (m in a.rooms[r].members <==> m in s.rooms[r].members && m != c))
      && (forall k :: k in a.chatRooms ==> k in s.chatRooms && a.chatRooms[k] == s.chatRooms[k])
      && (forall k :: k in s.chatRooms && k !in OwnRoomIds(s, c) ==> k in a.chatRooms)
      && (forall r :: s.sessions[c].currentRoom == Some(r) ==>
            (s.rooms[r].id in a.chatRooms <==> s.rooms[r].id in s.chatRooms && s.rooms[r].members != [c]))
  {
    EnterIds(s, c, t);
    LeaveFrame(s, c);
    LeaveMembership(s, c);
    var l := LeaveRoom(s, c);
    match s.sessions[c].currentRoom {
      case None =>
        assert c !in s.rooms[t].members;
      case Some(q) =>
        RemoveClientMembers(s, q, c);
        assert forall r :: 0 <= r < |s.rooms| && r != q ==> l.rooms[r] == s.rooms[r];
        if q != t {
          assert c !in s.rooms[t].members;
        }
    }
  }

  /** Entering a room registers nothing; leaving the old one can deregister
      only the old room's id, exactly when the session was its last member. */
  lemma EnterIds(s: State, c: ClientId, t: RoomRef)
    requires WellFormed(s) && Membership(s) && IsChatting(s, c) && t < |s.rooms|
    ensures var a := AddClient(LeaveRoom(s, c), c, t);
      && (forall k :: k in a.chatRooms ==> k in s.chatRooms && a.chatRooms[k] == s.chatRooms[k])
      && (forall k :: k in s.chatRooms && k !in OwnRoomIds(s, c) ==> k in a.chatRooms)
      && (forall r :: s.sessions[c].currentRoom == Some(r) ==>
            (s.rooms[r].id in a.chatRooms <==> s.rooms[r].id in s.chatRooms && s.rooms[r].members != [c]))
  {
    LeaveUntouched(s, c);
    assert AddClient(LeaveRoom(s, c), c, t).chatRooms == LeaveRoom(s, c).chatRooms;
    match s.sessions[c].currentRoom {
      case None =>
      case Some(r) =>
        LeftRoomDeregistered(s, c, r);
        assert LeaveRoom(s, c) == RemoveClient(s, r, c);
    }
  }

  /** The line `createChatRoom` builds joins the room registered under the id. */
  lemma JoinRegistered(s: State, c: ClientId, id: int)
    requires WellFormed(s) && IsChatting(s, c) && IsInt32(id) && id in s.chatRooms
    ensures JoinChatRoom(s, c, JoinCommand + " " + IntToString(id))
            == Outcome(AddClient(LeaveRoom(s, c), c, s.chatRooms[id]), [Send(c, JoinedRoom)])
  {
    JoinLineNamesId(id);
  }

  lemma CreateFacts(s: State, c: ClientId)
    requires Inv(s) && IsChatting(s, c) && s.nextRoomId < Int32Max
    ensures var id := s.nextRoomId;
      var o := CreateChatRoom(s, c);
      && id !in s.chatRooms
      && (forall r :: 0 <= r < |s.rooms| ==> s.rooms[r].id != id)
      && o.state.nextRoomId == id + 1
      && id in o.state.chatRooms
      && o.state.rooms[o.state.chatRooms[id]] == Room(id, [c])
      && o.state.sessions[c] == Chatting(s.sessions[c].nickname, Some(o.state.chatRooms[id]))
      && o.effects == [Send(c, RoomCreatedLine(id)), Send(c, JoinedRoom)]
  {
    var id := s.nextRoomId;
    var n := |s.rooms|;
    AllocateFacts(s);
    var s1 := AllocateRoom(s);
    var a := AddClient(LeaveRoom(s1, c), c, n);
    JoinRegistered(s1, c, id);
    assert CreateChatRoom(s, c) == Outcome(a, [Send(c, RoomCreatedLine(id)), Send(c, JoinedRoom)]);
    CreatedRoomHoldsCreator(s, c);
  }

  lemma CreatedRoomHoldsCreator(s: State, c: ClientId)
    requires Inv(s) && IsChatting(s, c) && s.nextRoomId < Int32Max
    ensures var a := AddClient(LeaveRoom(AllocateRoom(s), c), c, |s.rooms|);
      && s.nextRoomId in a.chatRooms && a.chatRooms[s.nextRoomId] == |s.rooms|
      && a.rooms[|s.rooms|] == Room(s.nextRoomId, [c])
      && a.sessions[c] == Chatting(s.sessions[c].nickname, Some(|s.rooms|))
      && a.nextRoomId == s.nextRoomId + 1
  {
    var n := |s.rooms|;
    AllocateFacts(s);
    var s1 := AllocateRoom(s);
    var a := AddClient(LeaveRoom(s1, c), c, n);
    EnterFacts(s1, c, n);
    LeaveFrame(s1, c);
    assert s.nextRoomId in a.chatRooms by {
      match s.sessions[c].currentRoom {
        case None =>
        case Some(q) => assert s1.rooms[q].id == q + 1;
      }
    }
    assert a.rooms[n].members == [c] by {
      assert forall m :: m in a.rooms[n].members <==> m == c;
      EnterPreservesInv(s1, c, n);
      assert NoDup(a.rooms[n].members);
    }
  }

  /** `/create` (and any line starting with it) allocates the counter's value
      as the id, which no room object ever had, advances the counter by one,
      and leaves the sender alone in the new room, which is registered. */
  lemma CreateOutcome(s: State, c: ClientId, line: string)
    requires Inv(s) && IsChatting(s, c) && s.nextRoomId < Int32Max
    requires Classify(line) == Create
    ensures var id := s.nextRoomId;
      var o := Step(s, c, Line(line));
      && id !in s.chatRooms
      && (forall r :: 0 <= r < |s.rooms| ==> s.rooms[r].id != id)
      && o.state.nextRoomId == id + 1
      && id in o.state.chatRooms
      && o.state.rooms[o.state.chatRooms[id]] == Room(id, [c])
      && o.state.sessions[c] == Chatting(s.sessions[c].nickname, Some(o.state.chatRooms[id]))
      && o.effects == [Send(c, RoomCreatedLine(id)), Send(c, JoinedRoom)]
  {
    StepDispatches(s, c, line);
    CreateFacts(s, c);
  }

  /** `/join` with nothing after the command word replies with a prompt and
      changes nothing.  The chat client sends exactly this line when it
      reads the `invited` sentinel, so an invitation never moves anyone. */
  lemma JoinWithoutId(s: State, c: ClientId, line: string)
    requires WellFormed(s) && IsChatting(s, c)
    requires Classify(line) == Join && NoSpace(line)
    ensures Step(s, c, Line(line)) == Outcome(s, [Send(c, RoomIdMissing)])
  {
    StepDispatches(s, c, line);
    assert |SplitOnce(line)| == 1;
  }

  /** `/join <n>` for an id that is not registered replies "Room ID does not
      exist." and changes nothing. */
  lemma JoinUnknownId(s: State, c: ClientId, line: string, id: int)
    requires WellFormed(s) && IsChatting(s, c)
    requires Classify(line) == Join
    requires |SplitOnce(line)| == 2 && ParseInt(SplitOnce(line)[1]) == Some(id)
    requires id !in s.chatRooms
    ensures Step(s, c, Line(line)) == Outcome(s, [Send(c, NoSuchRoom)])
  {
    StepDispatches(s, c, line);
    assert Perform(s, c, Join, line) == JoinChatRoom(s, c, line);
  }

  /** `/join` followed by text that is not a Java int: parseInt throws, the
      exception ends the session, and the finally block unregisters it. */
  lemma JoinMalformedId(s: State, c: ClientId, line: string)
    requires Inv(s) && IsChatting(s, c)
    requires Classify(line) == Join
    requires |SplitOnce(line)| == 2 && ParseInt(SplitOnce(line)[1]) == None
    ensures var o := Step(s, c, Line(line));
      var nick := s.sessions[c].nickname;
      && o.effects == []
      && o.state.sessions[c] == Ended(Some(nick))
      && o.state.nicknames == s.nicknames - {nick}
      && o.state.clients == s.clients - {nick}
      && (forall r :: 0 <= r < |o.state.rooms| ==> c !in o.state.rooms[r].members)
      && (forall r :: s.sessions[c].currentRoom == Some(r) ==>
            (s.rooms[r].id in o.state.chatRooms <==> s.rooms[r].id in s.chatRooms && s.rooms[r].members != [c]))
      && Untouched(s, o.state, c)
  {
    StepDispatches(s, c, line);
    DisconnectFacts(s, c);
  }

  lemma JoinLineRegistered(s: State, c: ClientId, line: string, id: int)
    requires WellFormed(s) && IsChatting(s, c)
    requires Classify(line) == Join
    requires |SplitOnce(line)| == 2 && ParseInt(SplitOnce(line)[1]) == Some(id)
    requires id in s.chatRooms
    ensures Step(s, c, Line(line)) == Outcome(AddClient(LeaveRoom(s, c), c, s.chatRooms[id]), [Send(c, JoinedRoom)])
  {
    StepDispatches(s, c, line);
  }

  /** `/join <id>` for a registered id: the session leaves its old room (if
      any), is appended to the target room, which becomes its current room,
      and is told "Joined the room."; nothing else about sessions or
      nicknames changes. */
  lemma JoinExisting(s: State, c: ClientId, line: string, id: int)
    requires Inv(s) && IsChatting(s, c)
    requires Classify(line) == Join
    requires |SplitOnce(line)| == 2 && ParseInt(SplitOnce(line)[1]) == Some(id)
    requires id in s.chatRooms
    ensures var o := Step(s, c, Line(line));
      var t := s.chatRooms[id];
      && o.effects == [Send(c, JoinedRoom)]
      && o.state.sessions[c] == Chatting(s.sessions[c].nickname, Some(t))
      && (forall d :: 0 <= d < |s.sessions| && d != c ==> o.state.sessions[d] == s.sessions[d])
      && o.state.nicknames == s.nicknames && o.state.clients == s.clients
      && |o.state.rooms| == |s.rooms|
      && o.state.rooms[t].members == RemoveFirst(s.rooms[t].members, c) + [c]
      && (forall m :: m in o.state.rooms[t].members <==> m in s.rooms[t].members || m == c)
      && (forall r, m :: 0 <= r < |s.rooms| && r != t
            ==> (m in o.state.rooms[r].members <==> m in s.rooms[r].members && m != c))
      && (forall k :: k in o.state.chatRooms ==> k in s.chatRooms && o.state.chatRooms[k] == s.chatRooms[k])
      && (forall k :: k in s.chatRooms && k !in OwnRoomIds(s, c) ==> k in o.state.chatRooms)
      && (forall r :: s.sessions[c].currentRoom == Some(r) ==>
            (s.rooms[r].id in o.state.chatRooms <==> s.rooms[r].id in s.chatRooms && s.rooms[r].members != [c]))
  {
    JoinLineRegistered(s, c, line, id);
    EnterFacts(s, c, s.chatRooms[id]);
  }

  /** The quirk of `joinChatRoom`, which leaves the old room before it
      joins the new one: a session alone in a registered room that
      joins that same room first empties it, which deletes the id from
      `chatRooms`, and is then added back to the now unregistered room.  The
      invariant survives (a registered room is never empty), but this room
      holds a member and can no longer be reached by id. */
  lemma RejoinAlone(s: State, c: ClientId, r: RoomRef, line: string)
    requires Inv(s) && IsChatting(s, c)
    requires s.sessions[c].currentRoom == Some(r) && s.rooms[r].members == [c]
    requires s.rooms[r].id in s.chatRooms
    requires line == JoinCommand + " " + IntToString(s.rooms[r].id)
    ensures var o := Step(s, c, Line(line));
      && o.effects == [Send(c, JoinedRoom)]
      && s.rooms[r].id !in o.state.chatRooms
      && |o.state.rooms| == |s.rooms|
      && o.state.rooms[r] == Room(s.rooms[r].id, [c])
      && o.state.sessions[c] == Chatting(s.sessions[c].nickname, Some(r))
      && Inv(o.state)
  {
    var id := s.rooms[r].id;
    JoinLineNamesId(id);
    assert Classify(line) == Join by {
      assert JoinCommand <= line;
      ClassifyExact(line);
    }
    assert s.chatRooms[id] == r;
    JoinLineRegistered(s, c, line, id);
    EmptiedByLeaving(s, c, r);
    StepDispatches(s, c, line);
    JoinPreservesInv(s, c, line);
  }

  /** The last member leaving a room empties it and deregisters its id. */
  lemma EmptiedByLeaving(s: State, c: ClientId, r: RoomRef)
    requires WellFormed(s) && IsChatting(s, c)
    requires s.sessions[c].currentRoom == Some(r) && s.rooms[r].members == [c]
    ensures var l := LeaveRoom(s, c);
      && l.rooms[r] == Room(s.rooms[r].id, [])
      && s.rooms[r].id !in l.chatRooms
      && l.sessions == s.sessions
  {
    assert RemoveFirst([c], c) == [];
  }

  lemma ExitStep(s: State, c: ClientId, r: RoomRef)
    requires WellFormed(s) && IsChatting(s, c) && s.sessions[c].currentRoom == Some(r)
    ensures var l := LeaveRoom(s, c);
      Step(s, c, Line(ExitRoomCommand))
      == Outcome(l.(sessions := l.sessions[c := Chatting(s.sessions[c].nickname, None)]), [Send(c, MovedToLobby)])
  {
    ClassifyWords();
    StepDispatches(s, c, ExitRoomCommand);
  }

  /** `/exit` in a room: the session leaves it (the room's id is deregistered
      exactly when it becomes empty), its current room becomes null, and it is
      told "Moved to the lobby.". */
  lemma ExitFromRoom(s: State, c: ClientId, r: RoomRef)
    requires Inv(s) && IsChatting(s, c) && s.sessions[c].currentRoom == Some(r)
    ensures var o := Step(s, c, Line(ExitRoomCommand));
      && o.effects == [Send(c, MovedToLobby)]
      && o.state.sessions[c] == Chatting(s.sessions[c].nickname, None)
      && (forall q :: 0 <= q < |o.state.rooms| ==> c !in o.state.rooms[q].members)
      && (s.rooms[r].id in o.state.chatRooms <==> s.rooms[r].id in s.chatRooms && s.rooms[r].members != [c])
      && (forall k :: k != s.rooms[r].id ==> (k in o.state.chatRooms <==> k in s.chatRooms))
      && o.state.nicknames == s.nicknames && o.state.clients == s.clients
      && Untouched(s, o.state, c)
  {
    ExitStep(s, c, r);
    ExitState(s, c, r);
    var l := LeaveRoom(s, c);
    LeaveUntouched(s, c);
    UntouchedOwnPhase(s, l, c, Chatting(s.sessions[c].nickname, None), l.nicknames, l.clients);
    assert l.(nicknames := l.nicknames, clients := l.clients,
              sessions := l.sessions[c := Chatting(s.sessions[c].nickname, None)])
           == l.(sessions := l.sessions[c := Chatting(s.sessions[c].nickname, None)]);
  }

  lemma ExitState(s: State, c: ClientId, r: RoomRef)
    requires Inv(s) && IsChatting(s, c) && s.sessions[c].currentRoom == Some(r)
    ensures var l := LeaveRoom(s, c);
      && |l.sessions| == |s.sessions|
      && (forall q :: 0 <= q < |l.rooms| ==> c !in l.rooms[q].members)
      && (s.rooms[r].id in l.chatRooms <==> s.rooms[r].id in s.chatRooms && s.rooms[r].members != [c])
      && (forall k :: k != s.rooms[r].id ==> (k in l.chatRooms <==> k in s.chatRooms))
      && l.nicknames == s.nicknames && l.clients == s.clients
  {
    LeaveFrame(s, c);
    LeftNowhere(s, c);
    LeftRoomDeregistered(s, c, r);
    assert LeaveRoom(s, c) == RemoveClient(s, r, c);
  }

  /** After leaving its room a session is in no member list. */
  lemma LeftNowhere(s: State, c: ClientId)
    requires Inv(s) && IsChatting(s, c)
    ensures forall q :: 0 <= q < |LeaveRoom(s, c).rooms| ==> c !in LeaveRoom(s, c).rooms[q].members
  {
    LeaveMembersExcept(s, c);
  }

  /** `/exit` in the lobby changes nothing. */
  lemma ExitFromLobby(s: State, c: ClientId)
    requires WellFormed(s) && IsChatting(s, c) && s.sessions[c].currentRoom == None
    ensures Step(s, c, Line(ExitRoomCommand)) == Outcome(s, [Send(c, NotInRoom)])
  {
    ClassifyWords();
    StepDispatches(s, c, ExitRoomCommand);
    assert Perform(s, c, ExitRoom, ExitRoomCommand) == ExitChatRoom(s, c);
  }

  /** A plain line in a room reaches every member of the room exactly once,
      the sender included, and no one else; it is also appended to the room's
      history.  The state does not change. */
  lemma ChatInRoom(s: State, c: ClientId, line: string, r: RoomRef)
    requires Inv(s) && IsChatting(s, c) && s.sessions[c].currentRoom == Some(r)
    requires Classify(line) == Chat
    ensures var o := Step(s, c, Line(line));
      var message := ChatLine(s.sessions[c].nickname, line);
      && o.state == s
      && o.effects[|o.effects| - 1] == AppendHistory(s.rooms[r].id, message)
      && CountSends(o.effects, c, message) == 1
      && (forall d: ClientId :: CountSends(o.effects, d, message)
                        == (if IsChatting(s, d) && s.sessions[d].currentRoom == Some(r) then 1 else 0))
  {
    var message := ChatLine(s.sessions[c].nickname, line);
    var members := s.rooms[r].members;
    StepDispatches(s, c, line);
    var effects := Broadcast(members, message) + [AppendHistory(s.rooms[r].id, message)];
    assert Step(s, c, Line(line)) == Outcome(s, effects);
    forall d: ClientId
      ensures CountSends(effects, d, message)
              == (if IsChatting(s, d) && s.sessions[d].currentRoom == Some(r) then 1 else 0)
    {
      BroadcastThenRecord(members, message, s.rooms[r].id, d);
    }
  }

  /** A plain line in the lobby goes nowhere. */
  lemma ChatInLobby(s: State, c: ClientId, line: string)
    requires WellFormed(s) && IsChatting(s, c) && s.sessions[c].currentRoom == None
    requires Classify(line) == Chat
    ensures Step(s, c, Line(line)) == Outcome(s, [])
  {
    StepDispatches(s, c, line);
    assert Perform(s, c, Chat, line) == Outcome(s, ChatEffects(s, c, line));
  }

  /** A whisper changes no state.  With a recipient and a message, exactly one
      line goes out: to the session registered under the recipient's name, or,
      when there is none, a notice to the sender; otherwise the sender gets
      the usage text. */
  lemma WhisperRouting(s: State, c: ClientId, line: string)
    requires Inv(s) && IsChatting(s, c) && Classify(line) == Whisper
    ensures var o := Step(s, c, Line(line));
      var parts := SplitTwice(line);
      var sender := s.sessions[c].nickname;
      && o.state == s
      && |o.effects| == 1
      && (|parts| == 3 && parts[1] in s.nicknames ==>
            o.effects[0] == Send(s.clients[parts[1]], WhisperLine(sender, parts[2]))
            && IsChatting(s, s.clients[parts[1]])
            && s.sessions[s.clients[parts[1]]].nickname == parts[1])
      && (|parts| == 3 && parts[1] !in s.nicknames ==> o.effects[0] == Send(c, UserNotFoundLine(parts[1])))
      && (|parts| < 3 ==> o.effects[0] == Send(c, WhisperUsage))
  {
    StepDispatches(s, c, line);
    assert Step(s, c, Line(line)) == Outcome(s, WhisperEffects(s, c, s.sessions[c].nickname, line));
  }

  /** An invitation changes no state.  A registered invitee receives the
      notice followed by the `invited` sentinel and nobody else hears of it;
      an unknown invitee is reported to the sender; a bare `/invite` gets the
      usage text. */
  lemma InviteRouting(s: State, c: ClientId, line: string)
    requires Inv(s) && IsChatting(s, c) && Classify(line) == Invite
    ensures var o := Step(s, c, Line(line));
      var parts := SplitOnce(line);
      var sender := s.sessions[c].nickname;
      && o.state == s
      && (|parts| == 2 && parts[1] in s.nicknames ==>
            o.effects == [Send(s.clients[parts[1]], InviteLine(sender)), Send(s.clients[parts[1]], InvitedSentinel)]
            && s.sessions[s.clients[parts[1]]].nickname == parts[1])
      && (|parts| == 2 && parts[1] !in s.nicknames ==> o.effects == [Send(c, UserNotFoundLine(parts[1]))])
      && (|parts| == 1 ==> o.effects == [Send(c, InviteUsage)])
  {
    StepDispatches(s, c, line);
    assert Step(s, c, Line(line)) == Outcome(s, InviteEffects(s, c, s.sessions[c].nickname, line));
  }

  /** `/users`, `/roomusers` and `/list` only report: the state is unchanged
      and every line goes back to the sender. */
  lemma ListingsOnlyReport(s: State, c: ClientId, line: string)
    requires WellFormed(s) && IsChatting(s, c)
    requires Classify(line) in {Users, RoomUsers, ListRooms}
    ensures var o := Step(s, c, Line(line));
      && o.state == s
      && forall i :: 0 <= i < |o.effects| ==>
           (o.effects[i].Send? || o.effects[i].SendEach?) && o.effects[i].to == c
  {
    StepDispatches(s, c, line);
  }

  /** `/list` reports each registered id once. */
  lemma ListNamesEveryRoom(s: State, c: ClientId)
    requires WellFormed(s) && IsChatting(s, c)
    ensures Step(s, c, Line(ListCommand)).effects
            == [Send(c, RoomsHeader), SendEach(c, set k | k in s.chatRooms :: RoomIdLine(k))]
  {
    ClassifyWords();
    StepDispatches(s, c, ListCommand);
  }

  /** `/users` reports, in no particular order, exactly the nicknames of the
      sessions in the command loop, each once. */
  lemma UsersListsChattingSessions(s: State, c: ClientId)
    requires Inv(s) && IsChatting(s, c)
    ensures Step(s, c, Line(UsersCommand)).effects
            == [Send(c, UsersHeader), SendEach(c, set d | 0 <= d < |s.sessions| && s.sessions[d].Chatting? :: s.sessions[d].nickname)]
  {
    var chatting := set d | 0 <= d < |s.sessions| && s.sessions[d].Chatting? :: s.sessions[d].nickname;
    assert s.nicknames == chatting by {
      forall n | n in s.nicknames ensures n in chatting {
        var d := s.clients[n];
        assert s.sessions[d].nickname == n;
      }
    }
    StepDispatches(s, c, UsersCommand);
  }

  /** `/roomusers` in a room lists the nickname of each member, in the order
      they joined, the sender among them; in the lobby it replies "Not
      currently in a room.". */
  lemma RoomUsersListsMembers(s: State, c: ClientId)
    requires Inv(s) && IsChatting(s, c)
    ensures var o := Step(s, c, Line(RoomUsersCommand));
      && o.state == s
      && (s.sessions[c].currentRoom == None ==> o.effects == [Send(c, NotInRoom)])
      && (s.sessions[c].currentRoom.Some? ==>
            var members := s.rooms[s.sessions[c].currentRoom.value].members;
            && |o.effects| == |members| + 1
            && o.effects[0] == Send(c, RoomUsersHeader)
            && (forall i :: 0 <= i < |members| ==>
                  IsChatting(s, members[i]) && o.effects[i + 1] == Send(c, s.sessions[members[i]].nickname))
            && Send(c, s.sessions[c].nickname) in o.effects[1..])
  {
    ClassifyWords();
    StepDispatches(s, c, RoomUsersCommand);
    assert Step(s, c, Line(RoomUsersCommand)) == Outcome(s, ListRoomUsers(s, c));
    if r :| s.sessions[c].currentRoom == Some(r) {
      RoomUsersLines(s, c, r);
    }
  }

  lemma RoomUsersLines(s: State, c: ClientId, r: RoomRef)
    requires WellFormed(s) && Membership(s) && IsChatting(s, c) && s.sessions[c].currentRoom == Some(r)
    ensures var out := ListRoomUsers(s, c);
      var members := s.rooms[r].members;
      && |out| == |members| + 1
      && out[0] == Send(c, RoomUsersHeader)
      && (forall i :: 0 <= i < |members| ==>
            IsChatting(s, members[i]) && out[i + 1] == Send(c, s.sessions[members[i]].nickname))
      && Send(c, s.sessions[c].nickname) in out[1..]
  {
    var members := s.rooms[r].members;
    var out := ListRoomUsers(s, c);
    var lines := NicknameLines(s, c, members);
    assert out == [Send(c, RoomUsersHeader)] + lines;
    forall i | 0 <= i < |members|
      ensures IsChatting(s, members[i]) && out[i + 1] == Send(c, s.sessions[members[i]].nickname)
    {
      assert members[i] in s.rooms[r].members;
      assert out[i + 1] == lines[i];
    }
    assert c in members;
    var i :| 0 <= i < |members| && members[i] == c;
    assert out[1..][i] == lines[i];
  }

  /** The nickname handshake: a free candidate (the anonymous name when the
      first answer is blank) is registered in both registries and the
      session enters the lobby; a taken one is re-prompted and only the
      session's phase changes. */
  lemma Registration(s: State, c: ClientId, text: string)
    requires Inv(s) && c < |s.sessions|
    requires s.sessions[c].AwaitingNickname? || s.sessions[c].Retrying?
    ensures var candidate := if s.sessions[c].AwaitingNickname? && Blank(text)
                             then s.sessions[c].anonymous else text;
      var o := Step(s, c, Line(text));
      && (candidate in s.nicknames ==>
            o == Outcome(s.(sessions := s.sessions[c := Retrying(candidate)]), [Send(c, NicknameInUse)]))
      && (candidate !in s.nicknames ==>
            && o.effects == []
            && o.state.nicknames == s.nicknames + {candidate}
            && o.state.clients == s.clients[candidate := c]
            && o.state.sessions[c] == Chatting(candidate, None)
            && (forall d :: 0 <= d < |s.sessions| && s.sessions[d].Chatting? ==> s.sessions[d].nickname != candidate)
            && |o.state.sessions| == |s.sessions|
            && (forall d :: 0 <= d < |s.sessions| && d != c ==> o.state.sessions[d] == s.sessions[d])
            && o.state.rooms == s.rooms && o.state.chatRooms == s.chatRooms && o.state.nextRoomId == s.nextRoomId)
  {
    var candidate := if s.sessions[c].AwaitingNickname? && Blank(text) then s.sessions[c].anonymous else text;
    assert Step(s, c, Line(text)) == Offer(s, c, candidate);
  }

  /** Leaving the command loop (`/bye`, end of stream or a read error) removes
      the nickname from both registries and the session from its room; the
      room's id is deregistered exactly when the session was its last member. */
  lemma DisconnectCleanup(s: State, c: ClientId, e: Event)
    requires Inv(s) && IsChatting(s, c)
    requires e == Line(ByeCommand) || e == EndOfStream || e == ReadError
    ensures var o := Step(s, c, e);
      var nick := s.sessions[c].nickname;
      && o.effects == []
      && o.state.sessions[c] == Ended(Some(nick))
      && o.state.nicknames == s.nicknames - {nick}
      && o.state.clients == s.clients - {nick}
      && (forall r :: 0 <= r < |o.state.rooms| ==> c !in o.state.rooms[r].members)
      && (forall r :: s.sessions[c].currentRoom == Some(r) ==>
            (s.rooms[r].id in o.state.chatRooms <==> s.rooms[r].id in s.chatRooms && s.rooms[r].members != [c]))
      && Untouched(s, o.state, c)
      && Inv(o.state)
  {
    if e == Line(ByeCommand) {
      StepDispatches(s, c, ByeCommand);
    }
    assert Step(s, c, e) == Outcome(Disconnect(s, c), []);
    DisconnectFacts(s, c);
  }

  /** The corrected end of a negotiation: when the read of a re-prompted
      nickname ends or fails, the session ends and neither registry changes,
      so the nickname's owner stays registered and no null name appears. */
  lemma AbandonedNegotiation(s: State, c: ClientId, e: Event)
    requires Inv(s) && c < |s.sessions| && s.sessions[c].Retrying? && !e.Line?
    ensures var o := Step(s, c, e);
      && o.effects == []
      && o.state.sessions[c].Ended?
      && o.state.nicknames == s.nicknames && o.state.clients == s.clients
      && o.state.chatRooms == s.chatRooms && o.state.rooms == s.rooms
      && Inv(o.state)
  {
    var candidate := s.sessions[c].candidate;
    ReplaceUnregistered(s, c, Ended(if e == ReadError then Some(candidate) else None));
  }

  /** The first read ends or fails.  A read error leaves the nickname field
      null, so the finally block has nothing to remove; end of stream
      registers the anonymous name and the finally block removes it again at
      once.  Either way the session ends and the registries, the rooms and
      every other session are as before.  When the anonymous name is taken,
      the re-prompted read meets the same end of stream; there the source
      registers null (NegotiationAsWritten.FirstEndOfStreamRegistersNull) and
      this lemma states the corrected ending of Server.AbandonNegotiation. */
  lemma FirstAnswerFails(s: State, c: ClientId, e: Event)
    requires Inv(s) && c < |s.sessions| && s.sessions[c].AwaitingNickname? && !e.Line?
    ensures var o := Step(s, c, e);
      && o.state.sessions[c].Ended?
      && |o.state.sessions| == |s.sessions|
      && (forall d :: 0 <= d < |s.sessions| && d != c ==> o.state.sessions[d] == s.sessions[d])
      && o.state.nicknames == s.nicknames && o.state.clients == s.clients
      && o.state.chatRooms == s.chatRooms && o.state.rooms == s.rooms
      && o.effects == (if e == EndOfStream && s.sessions[c].anonymous in s.nicknames
                       then [Send(c, NicknameInUse)] else [])
      && Inv(o.state)
  {
    var anonymous := s.sessions[c].anonymous;
    if e == ReadError {
      ReplaceUnregistered(s, c, Ended(None));
    } else if anonymous in s.nicknames {
      AnonymousTakenAtEnd(s, c);
    } else {
      AnonymousFreeAtEnd(s, c);
    }
  }

  lemma AnonymousTakenAtEnd(s: State, c: ClientId)
    requires Inv(s) && c < |s.sessions| && s.sessions[c].AwaitingNickname?
    requires s.sessions[c].anonymous in s.nicknames
    ensures Step(s, c, EndOfStream)
            == Outcome(s.(sessions := s.sessions[c := Ended(None)]), [Send(c, NicknameInUse)])
    ensures Inv(s.(sessions := s.sessions[c := Ended(None)]))
  {
    ReplaceUnregistered(s, c, Ended(None));
  }

  lemma AnonymousFreeAtEnd(s: State, c: ClientId)
    requires Inv(s) && c < |s.sessions| && s.sessions[c].AwaitingNickname?
    requires s.sessions[c].anonymous !in s.nicknames
    ensures var anonymous := s.sessions[c].anonymous;
      Step(s, c, EndOfStream) == Outcome(s.(sessions := s.sessions[c := Ended(Some(anonymous))]), [])
    ensures Inv(s.(sessions := s.sessions[c := Ended(Some(s.sessions[c].anonymous))]))
  {
    var anonymous := s.sessions[c].anonymous;
    var o := Offer(s, c, anonymous);
    assert o.state.sessions[c] == Chatting(anonymous, None);
    assert o.state.clients - {anonymous} == s.clients;
    assert o.state.nicknames - {anonymous} == s.nicknames;
    assert Disconnect(o.state, c) == s.(sessions := s.sessions[c := Ended(Some(anonymous))]);
    ReplaceUnregistered(s, c, Ended(Some(anonymous)));
  }

  /** At Integer.MAX_VALUE `nextRoomId++` wraps to Integer.MIN_VALUE, after
      which new ids are negative and the counter no longer bounds the keys. */
  lemma CreateAtCounterLimit(s: State, c: ClientId)
    requires WellFormed(s) && IsChatting(s, c) && s.nextRoomId == Int32Max
    ensures CreateChatRoom(s, c).state.nextRoomId == Int32Min
  {
  }
}
