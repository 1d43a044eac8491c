/** Concrete runs of the server. */
module Scenarios {
  import opened Optional
  import opened JavaStrings
  import opened Commands
  import opened ChatRoom
  import opened Output
  import opened Server
  import opened ServerProperties

  lemma RunFirst(s: State, i: Input, rest: seq<Input>)
    requires WellFormed(s)
    ensures Run(s, [i] + rest) == Run(Apply(s, i).state, rest)
  {
    assert ([i] + rest)[1..] == rest;
  }

  const Prompted: State := Initial.(sessions := [AwaitingNickname("Anonymousa")])
  const Alice: State := State({"alice"}, map["alice" := 0], map[], [], 1, [Chatting("alice", None)])
  const BobPrompted: State := Alice.(sessions := Alice.sessions + [AwaitingNickname("Anonymousb")])

  lemma AliceRegisters()
    ensures Apply(Initial, Connect("a")).state == Prompted
    ensures WellFormed(Prompted) && Apply(Prompted, Deliver(0, Line("alice"))).state == Alice
  {
    assert "Anonymous" + "a" == "Anonymousa";
    assert !Blank("alice") by { assert "alice"[0] == 'a'; }
  }

  lemma BobRegisters()
    ensures WellFormed(Alice) && Apply(Alice, Connect("b")).state == BobPrompted
    ensures WellFormed(BobPrompted) && Apply(BobPrompted, Deliver(1, Line("bob"))).state == Lobby2
  {
    assert "Anonymous" + "b" == "Anonymousb";
    assert !Blank("bob") by { assert "bob"[0] == 'b'; }
  }

  lemma AliceRun(rest: seq<Input>)
    ensures Run(Initial, [Connect("a"), Deliver(0, Line("alice"))] + rest) == Run(Alice, rest)
  {
    AliceRegisters();
    var xs := [Connect("a"), Deliver(0, Line("alice"))] + rest;
    RunFirst(Initial, xs[0], xs[1..]);
    RunFirst(Prompted, xs[1], xs[2..]);
  }

  lemma BobRun()
    ensures WellFormed(Alice) && Run(Alice, [Connect("b"), Deliver(1, Line("bob"))]) == Lobby2
  {
    BobRegisters();
    var xs := [Connect("b"), Deliver(1, Line("bob"))];
    RunFirst(Alice, xs[0], xs[1..]);
    RunFirst(BobPrompted, xs[1], []);
  }

  /** Two sessions registered as "alice" (0) and "bob" (1), both in the lobby. */
  lemma TwoUsers()
    ensures Run(Initial, Registering) == Lobby2
  {
    assert Registering == [Connect("a"), Deliver(0, Line("alice"))] + [Connect("b"), Deliver(1, Line("bob"))];
    AliceRun([Connect("b"), Deliver(1, Line("bob"))]);
    BobRun();
  }

  lemma CreateLine()
    ensures Classify("/create") == Create && IntToString(1) == "1"
  {
    ClassifyWords();
  }

  lemma JoinOneLine()
    ensures Classify("/join 1") == Join && SplitOnce("/join 1") == ["/join", "1"] && ParseInt("1") == Some(1)
  {
    assert JoinCommand <= "/join 1";
    assert "/join 1" == JoinCommand + " " + "1";
    SplitOnceJoined(JoinCommand, "1");
    ParseIntToString(1);
  }

  const Names: set<string> := {"alice", "bob"}
  const Handles: map<string, ClientId> := map["alice" := 0, "bob" := 1]
  const Lobby2: State := State(Names, Handles, map[], [], 1, [Chatting("alice", None), Chatting("bob", None)])
  const Created: State := State(Names, Handles, map[1 := 0], [Room(1, [0])], 2, [Chatting("alice", Some(0)), Chatting("bob", None)])
  const Joined: State := State(Names, Handles, map[1 := 0], [Room(1, [0, 1])], 2, [Chatting("alice", Some(0)), Chatting("bob", Some(0))])
  const Emptied: State := State(Names, Handles, map[], [Room(1, [])], 2, [Chatting("alice", None), Chatting("bob", None)])
  const Arrived: State := Emptied.(sessions := Emptied.sessions + [AwaitingNickname("Anonymousc")])
  const Late: State := State(Names + {"carol"}, Handles["carol" := 2], map[], [Room(1, [])], 2,
                             [Chatting("alice", None), Chatting("bob", None), Chatting("carol", None)])

  lemma Lobby2WellFormed()
    ensures WellFormed(Lobby2) && IsChatting(Lobby2, 0)
  {
  }

  const Allocated: State := State(Names, Handles, map[1 := 0], [Room(1, [])], 2, Lobby2.sessions)

  lemma AllocateFirst()
    ensures WellFormed(Lobby2) && AllocateRoom(Lobby2) == Allocated
  {
    Lobby2WellFormed();
  }

  lemma JoinAllocated()
    ensures WellFormed(Allocated) && IsChatting(Allocated, 0)
    ensures JoinChatRoom(Allocated, 0, "/join 1") == Outcome(Created, [Send(0, JoinedRoom)])
  {
    AllocatedWellFormed();
    JoinOneLine();
    assert JoinChatRoom(Allocated, 0, "/join 1") == Outcome(AddClient(LeaveRoom(Allocated, 0), 0, 0), [Send(0, JoinedRoom)]);
    EnterAllocated();
  }

  lemma AllocatedWellFormed()
    ensures WellFormed(Allocated) && IsChatting(Allocated, 0) && Allocated.chatRooms[1] == 0
  {
  }

  lemma EnterAllocated()
    ensures WellFormed(Allocated) && IsChatting(Allocated, 0)
    ensures AddClient(LeaveRoom(Allocated, 0), 0, 0) == Created
  {
    AllocatedWellFormed();
    assert LeaveRoom(Allocated, 0) == Allocated;
    var a := AddClient(Allocated, 0, 0);
    assert Allocated.rooms[0].members + [0] == [0];
    assert a.rooms == [Room(1, [0])];
    assert a.sessions == [Chatting("alice", Some(0)), Chatting("bob", None)];
  }

  lemma CreateDispatched()
    ensures WellFormed(Lobby2)
    ensures Step(Lobby2, 0, Line("/create")) == CreateChatRoom(Lobby2, 0)
  {
    Lobby2WellFormed();
    CreateLine();
    StepDispatches(Lobby2, 0, "/create");
  }

  lemma CreateUnfolds(s: State, c: ClientId, line: string, created: string)
    requires WellFormed(s) && IsChatting(s, c)
    requires line == JoinCommand + " " + IntToString(s.nextRoomId) && created == RoomCreatedLine(s.nextRoomId)
    ensures var j := JoinChatRoom(AllocateRoom(s), c, line);
      CreateChatRoom(s, c) == Outcome(j.state, [Send(c, created)] + j.effects)
  {
  }

  lemma CreatedLine()
    ensures RoomCreatedLine(1) == "Room 1 created." && JoinCommand + " " + IntToString(1) == "/join 1"
  {
    CreateLine();
  }

  /** `/create` from the lobby: "Room 1 created." then "Joined the room.". */
  lemma AliceCreates()
    ensures Step(Lobby2, 0, Line("/create")) == Outcome(Created, [Send(0, "Room 1 created."), Send(0, JoinedRoom)])
  {
    CreateDispatched();
    var j := JoinChatRoom(AllocateRoom(Lobby2), 0, "/join 1");
    assert j == Outcome(Created, [Send(0, JoinedRoom)]) by {
      AllocateFirst();
      JoinAllocated();
    }
    assert CreateChatRoom(Lobby2, 0) == Outcome(j.state, [Send(0, "Room 1 created.")] + j.effects) by {
      Lobby2WellFormed();
      CreatedLine();
      CreateUnfolds(Lobby2, 0, "/join 1", "Room 1 created.");
    }
  }

  lemma CreatedWellFormed()
    ensures WellFormed(Created) && IsChatting(Created, 0) && IsChatting(Created, 1) && 1 in Created.chatRooms
  {
  }

  lemma BobJoins()
    ensures Step(Created, 1, Line("/join 1")) == Outcome(Joined, [Send(1, JoinedRoom)])
  {
    CreatedWellFormed();
    JoinOneLine();
    JoinLineRegistered(Created, 1, "/join 1", 1);
    BobEnters();
  }

  lemma BobEnters()
    ensures WellFormed(Created) && IsChatting(Created, 1)
    ensures AddClient(LeaveRoom(Created, 1), 1, 0) == Joined
  {
    CreatedWellFormed();
    assert LeaveRoom(Created, 1) == Created;
    var a := AddClient(Created, 1, 0);
    assert Created.rooms[0].members + [1] == [0, 1];
    assert a.rooms == [Room(1, [0, 1])];
    assert a.sessions == [Chatting("alice", Some(0)), Chatting("bob", Some(0))];
  }

  lemma JoinedWellFormed()
    ensures WellFormed(Joined) && IsChatting(Joined, 1) && IsChatting(Joined, 0)
  {
  }

  lemma DropSecond()
    ensures RemoveFirst([0, 1], 1) == [0]
  {
    var ys := RemoveFirst([0, 1], 1);
    assert NoDup([0, 1]);
    RemoveFirstNoDup([0, 1], 1);
    assert ys[0] in ys;
  }

  lemma BobOutOfRoom()
    ensures WellFormed(Joined) && RemoveClient(Joined, 0, 1) == Joined.(rooms := [Room(1, [0])])
  {
    JoinedWellFormed();
    DropSecond();
  }

  lemma BobLeaves()
    ensures Step(Joined, 1, Line("/exit")) == Outcome(Created, [Send(1, MovedToLobby)])
  {
    JoinedWellFormed();
    ExitStep(Joined, 1, 0);
    var l := LeaveRoom(Joined, 1);
    assert l == Joined.(rooms := [Room(1, [0])]) by {
      BobOutOfRoom();
    }
    assert l.(sessions := l.sessions[1 := Chatting("bob", None)]) == Created;
  }

  lemma AliceLeaves()
    ensures Step(Created, 0, Line("/exit")) == Outcome(Emptied, [Send(0, MovedToLobby)])
  {
    CreatedWellFormed();
    ExitStep(Created, 0, 0);
    var l := LeaveRoom(Created, 0);
    assert l == Created.(rooms := [Room(1, [])], chatRooms := map[]) by {
      assert RemoveFirst([0], 0) == [];
      assert l == RemoveClient(Created, 0, 0);
    }
    assert l.(sessions := l.sessions[0 := Chatting("alice", None)]) == Emptied;
  }

  lemma CarolArrives()
    ensures Apply(Apply(Emptied, Connect("c")).state, Deliver(2, Line("carol"))).state == Late
  {
    assert "Anonymous" + "c" == "Anonymousc";
    assert Apply(Emptied, Connect("c")).state == Arrived;
    assert !Blank("carol") by { assert "carol"[0] == 'c'; }
  }

  const Registering: seq<Input> := [Connect("a"), Deliver(0, Line("alice")), Connect("b"), Deliver(1, Line("bob"))]
  const InAndOut: seq<Input> := [Deliver(0, Line("/create")), Deliver(1, Line("/join 1")),
                                 Deliver(1, Line("/exit")), Deliver(0, Line("/exit"))]
  const Latecomer: seq<Input> := [Connect("c"), Deliver(2, Line("carol"))]

  lemma InAndOutRun()
    ensures WellFormed(Lobby2) && Run(Lobby2, InAndOut) == Emptied
  {
    Lobby2WellFormed();
    CreateLeg();
    JoinLeg();
    BobExitLeg();
    AliceExitLeg();
  }

  lemma CreateLeg()
    ensures WellFormed(Lobby2) && Run(Lobby2, InAndOut) == Run(Created, InAndOut[1..])
  {
    Lobby2WellFormed();
    AliceCreates();
    RunFirst(Lobby2, InAndOut[0], InAndOut[1..]);
  }

  lemma JoinLeg()
    ensures WellFormed(Created) && Run(Created, InAndOut[1..]) == Run(Joined, InAndOut[2..])
  {
    CreatedWellFormed();
    BobJoins();
    RunFirst(Created, InAndOut[1], InAndOut[2..]);
  }

  lemma BobExitLeg()
    ensures WellFormed(Joined) && Run(Joined, InAndOut[2..]) == Run(Created, InAndOut[3..])
  {
    JoinedWellFormed();
    BobLeaves();
    RunFirst(Joined, InAndOut[2], InAndOut[3..]);
  }

  lemma AliceExitLeg()
    ensures WellFormed(Created) && Run(Created, InAndOut[3..]) == Emptied
  {
    CreatedWellFormed();
    AliceLeaves();
    RunFirst(Created, InAndOut[3], []);
  }

  lemma LatecomerRun()
    ensures WellFormed(Emptied) && Run(Emptied, Latecomer) == Late
  {
    CarolArrives();
    RunFirst(Emptied, Latecomer[0], Latecomer[1..]);
    RunFirst(Arrived, Latecomer[1], []);
  }

  /** Alice creates room 1 and bob joins it; both leave with `/exit`; the
      room is then gone, and carol, arriving afterwards, is told that
      `/join 1` names no room. */
  lemma RoomGoneAfterEveryoneLeaves()
    ensures var s := Run(Initial, Registering + InAndOut + Latecomer);
      && 1 !in s.chatRooms
      && Step(s, 2, Line("/join 1")) == Outcome(s, [Send(2, NoSuchRoom)])
  {
    TwoUsers();
    RunConcat(Initial, Registering + InAndOut, Latecomer);
    RunConcat(Initial, Registering, InAndOut);
    InAndOutRun();
    LatecomerRun();
    LateJoinFails();
  }

  lemma LateJoinFails()
    ensures WellFormed(Late) && Step(Late, 2, Line("/join 1")) == Outcome(Late, [Send(2, NoSuchRoom)])
  {
    LateWellFormed();
    JoinOneLine();
    JoinUnknownId(Late, 2, "/join 1", 1);
  }

  lemma LateWellFormed()
    ensures WellFormed(Late) && IsChatting(Late, 2) && 1 !in Late.chatRooms
  {
  }

  lemma {:induction false} RunConcat(s: State, xs: seq<Input>, ys: seq<Input>)
    requires WellFormed(s)
    ensures Run(s, xs + ys) == Run(Run(s, xs), ys)
    decreases |xs|
  {
    if xs != [] {
      assert (xs + ys)[0] == xs[0];
      assert (xs + ys)[1..] == xs[1..] + ys;
      RunConcat(Apply(s, xs[0]).state, xs[1..], ys);
    } else {
      assert xs + ys == ys;
    }
  }
}
