/** The consistency the server's registries keep between commands, and the
    proof that every step keeps it. */
module ServerInvariants {
  import opened Optional
  import opened JavaStrings
  import opened Commands
  import opened ChatRoom
  import opened Server

  /** `nicknames` and `clients` have the same keys; each key maps to the
      session registered under that name, and each registered session's name
      maps back to it (so no two sessions share a nickname). */
  predicate Registries(s: State) {
    && s.nicknames == s.clients.Keys
    && (forall n :: n in s.clients ==> IsChatting(s, s.clients[n]) && s.sessions[s.clients[n]].nickname == n)
    && (forall c :: 0 <= c < |s.sessions| && s.sessions[c].Chatting?
          ==> s.sessions[c].nickname in s.clients && s.clients[s.sessions[c].nickname] == c)
  }

  /** Room ids come from the counter in creation order, so the k-th room object
      ever created has id k + 1, and `chatRooms` files each room under its id. */
  predicate Counter(s: State)
    requires WellFormed(s)
  {
    && s.nextRoomId == |s.rooms| + 1
    && (forall r :: 0 <= r < |s.rooms| ==> s.rooms[r].id == r + 1)
    && (forall k :: k in s.chatRooms ==> s.rooms[s.chatRooms[k]].id == k)
  }

  /** A registered room has members, except possibly the room `skip`. */
  predicate NonEmptyExcept(s: State, skip: int)
    requires WellFormed(s)
  {
    forall k :: k in s.chatRooms && s.chatRooms[k] != skip ==> s.rooms[s.chatRooms[k]].members != []
  }

  /** Each member list holds exactly the registered sessions whose
      `currentRoom` is that room, each once. */
  predicate Membership(s: State)
    requires WellFormed(s)
  {
    && (forall r, m :: 0 <= r < |s.rooms| && m in s.rooms[r].members
          ==> IsChatting(s, m) && s.sessions[m].currentRoom == Some(r))
    && (forall c :: 0 <= c < |s.sessions| && s.sessions[c].Chatting? && s.sessions[c].currentRoom.Some?
          ==> c in s.rooms[s.sessions[c].currentRoom.value].members)
    && (forall r :: 0 <= r < |s.rooms| ==> NoDup(s.rooms[r].members))
  }

  predicate InvExcept(s: State, skip: int) {
    && WellFormed(s)
    && Registries(s)
    && Counter(s)
    && NonEmptyExcept(s, skip)
    && Membership(s)
  }

  /** The invariant at every command boundary. */
  predicate Inv(s: State) {
    InvExcept(s, -1)
  }

  lemma InitialInv()
    ensures Inv(Initial)
  {
  }

  // ------------------------------------------------------------ consequences

  /** Every registered id lies below the counter (and above zero). */
  lemma KeysBelowCounter(s: State)
    requires Inv(s)
    ensures forall k :: k in s.chatRooms ==> 1 <= k < s.nextRoomId
  {
    forall k | k in s.chatRooms ensures 1 <= k < s.nextRoomId {
      assert s.rooms[s.chatRooms[k]].id == s.chatRooms[k] + 1;
    }
  }

  /** No two room objects ever created share an id. */
  lemma RoomIdsDistinct(s: State)
    requires Inv(s)
    ensures forall i, j :: 0 <= i < j < |s.rooms| ==> s.rooms[i].id != s.rooms[j].id
  {
  }

  // ------------------------------------------------------------ building blocks

  lemma RemoveClientMembers(s: State, r: RoomRef, c: ClientId)
    requires WellFormed(s) && r < |s.rooms| && NoDup(s.rooms[r].members)
    ensures NoDup(RemoveClient(s, r, c).rooms[r].members)
    ensures forall m :: m in RemoveClient(s, r, c).rooms[r].members <==> m in s.rooms[r].members && m != c
  {
    RemoveFirstNoDup(s.rooms[r].members, c);
  }

  /** Every member list entry is a registered session sitting in that room,
      other than c. */
  predicate MembersExcept(s: State, c: ClientId)
    requires WellFormed(s)
  {
    forall r, m :: 0 <= r < |s.rooms| && m in s.rooms[r].members
      ==> m != c && IsChatting(s, m) && s.sessions[m].currentRoom == Some(r)
  }

  /** Every registered session other than c sits in its current room's list. */
  predicate PresentExcept(s: State, c: ClientId)
    requires WellFormed(s)
  {
    forall d :: 0 <= d < |s.sessions| && d != c && s.sessions[d].Chatting? && s.sessions[d].currentRoom.Some?
      ==> d in s.rooms[s.sessions[d].currentRoom.value].members
  }

  predicate AllNoDup(s: State) {
    forall r :: 0 <= r < |s.rooms| ==> NoDup(s.rooms[r].members)
  }

  lemma LeaveFrame(s: State, c: ClientId)
    requires WellFormed(s) && IsChatting(s, c)
    ensures var s' := LeaveRoom(s, c);
      && |s'.rooms| == |s.rooms| && s'.sessions == s.sessions
      && s'.nicknames == s.nicknames && s'.clients == s.clients
      && s'.nextRoomId == s.nextRoomId
      && (forall r :: 0 <= r < |s'.rooms| ==> s'.rooms[r].id == s.rooms[r].id)
      && (forall k :: k in s'.chatRooms ==> k in s.chatRooms && s'.chatRooms[k] == s.chatRooms[k])
      && (forall k :: k in s.chatRooms
            && (s.sessions[c].currentRoom.None? || k != s.rooms[s.sessions[c].currentRoom.value].id)
            ==> k in s'.chatRooms)
  {
  }

  lemma LeaveRegistries(s: State, c: ClientId)
    requires WellFormed(s) && IsChatting(s, c) && Registries(s)
    ensures Registries(LeaveRoom(s, c))
  {
    LeaveFrame(s, c);
  }

  lemma LeaveCounter(s: State, c: ClientId)
    requires WellFormed(s) && IsChatting(s, c) && Counter(s)
    ensures Counter(LeaveRoom(s, c))
  {
    LeaveFrame(s, c);
  }

  lemma LeaveNonEmpty(s: State, c: ClientId, skip: int)
    requires WellFormed(s) && IsChatting(s, c) && Counter(s) && NonEmptyExcept(s, skip)
    ensures NonEmptyExcept(LeaveRoom(s, c), skip)
  {
    match s.sessions[c].currentRoom
    case None =>
    case Some(r) =>
      var s' := RemoveClient(s, r, c);
      forall k | k in s'.chatRooms && s'.chatRooms[k] != skip
        ensures s'.rooms[s'.chatRooms[k]].members != []
      {
        var q := s.chatRooms[k];
        if q == r {
          assert k == s.rooms[r].id;
        } else {
          assert s'.rooms[q] == s.rooms[q];
        }
      }
  }

  lemma LeaveMembership(s: State, c: ClientId)
    requires WellFormed(s) && IsChatting(s, c) && Membership(s)
    ensures MembersExcept(LeaveRoom(s, c), c)
    ensures PresentExcept(LeaveRoom(s, c), c)
    ensures AllNoDup(LeaveRoom(s, c))
  {
    LeaveMembersExcept(s, c);
    LeavePresentExcept(s, c);
    LeaveAllNoDup(s, c);
  }

  lemma LeaveMembersExcept(s: State, c: ClientId)
    requires WellFormed(s) && IsChatting(s, c) && Membership(s)
    ensures MembersExcept(LeaveRoom(s, c), c)
  {
    var s' := LeaveRoom(s, c);
    forall q, m | 0 <= q < |s'.rooms| && m in s'.rooms[q].members
      ensures m != c && IsChatting(s', m) && s'.sessions[m].currentRoom == Some(q)
    {
      LeftMemberStays(s, c, q, m);
      assert IsChatting(s, m) && s.sessions[m].currentRoom == Some(q);
    }
  }

  /** A member left behind in any room was there before and is not c. */
  lemma LeftMemberStays(s: State, c: ClientId, q: RoomRef, m: ClientId)
    requires WellFormed(s) && IsChatting(s, c) && Membership(s)
    requires q < |LeaveRoom(s, c).rooms| && m in LeaveRoom(s, c).rooms[q].members
    ensures m in s.rooms[q].members && m != c && LeaveRoom(s, c).sessions == s.sessions
  {
    match s.sessions[c].currentRoom
    case None =>
    case Some(r) =>
      RemoveClientMembers(s, r, c);
      if q != r {
        assert RemoveClient(s, r, c).rooms[q] == s.rooms[q];
        assert IsChatting(s, m) && s.sessions[m].currentRoom == Some(q);
      }
  }

  lemma LeavePresentExcept(s: State, c: ClientId)
    requires WellFormed(s) && IsChatting(s, c) && Membership(s)
    ensures PresentExcept(LeaveRoom(s, c), c)
  {
    match s.sessions[c].currentRoom
    case None =>
    case Some(r) =>
      var s' := RemoveClient(s, r, c);
      RemoveClientMembers(s, r, c);
      forall d | 0 <= d < |s'.sessions| && d != c && s'.sessions[d].Chatting? && s'.sessions[d].currentRoom.Some?
        ensures d in s'.rooms[s'.sessions[d].currentRoom.value].members
      {
        var q := s.sessions[d].currentRoom.value;
        if q != r {
          assert s'.rooms[q] == s.rooms[q];
        }
      }
  }

  lemma LeaveAllNoDup(s: State, c: ClientId)
    requires WellFormed(s) && IsChatting(s, c) && Membership(s)
    ensures AllNoDup(LeaveRoom(s, c))
  {
    match s.sessions[c].currentRoom
    case None =>
    case Some(r) =>
      var s' := RemoveClient(s, r, c);
      RemoveClientMembers(s, r, c);
      forall q | 0 <= q < |s'.rooms| ensures NoDup(s'.rooms[q].members) {
        if q != r {
          assert s'.rooms[q] == s.rooms[q];
        }
      }
  }

  // ------------------------------------------------------------ operations

  lemma DisconnectPreservesInv(s: State, c: ClientId)
    requires Inv(s) && IsChatting(s, c)
    ensures Inv(Disconnect(s, c))
  {
    var nick := s.sessions[c].nickname;
    var l := LeaveRoom(s, c);
    LeaveFrame(s, c);
    LeaveRegistries(s, c);
    LeaveCounter(s, c);
    LeaveNonEmpty(s, c, -1);
    LeaveMembership(s, c);
    assert Disconnect(s, c) == l.(nicknames := l.nicknames - {nick}, clients := l.clients - {nick},
                                  sessions := l.sessions[c := Ended(Some(nick))]);
    HangUpPreservesInv(l, c);
  }

  /** A session that is in no member list can be ended and unregistered. */
  lemma HangUpPreservesInv(l: State, c: ClientId)
    requires WellFormed(l) && IsChatting(l, c)
    requires Registries(l) && Counter(l) && NonEmptyExcept(l, -1)
    requires MembersExcept(l, c) && PresentExcept(l, c) && AllNoDup(l)
    ensures var nick := l.sessions[c].nickname;
      Inv(l.(nicknames := l.nicknames - {nick}, clients := l.clients - {nick},
             sessions := l.sessions[c := Ended(Some(nick))]))
  {
    var nick := l.sessions[c].nickname;
    var d := l.(nicknames := l.nicknames - {nick}, clients := l.clients - {nick},
                sessions := l.sessions[c := Ended(Some(nick))]);
    assert Registries(d) by {
      forall n | n in d.clients ensures IsChatting(d, d.clients[n]) && d.sessions[d.clients[n]].nickname == n {
        assert l.clients[n] != c;
      }
    }
    forall r, m | 0 <= r < |d.rooms| && m in d.rooms[r].members
      ensures IsChatting(d, m) && d.sessions[m].currentRoom == Some(r)
    {
      assert m != c && IsChatting(l, m) && l.sessions[m].currentRoom == Some(r);
    }
  }

  lemma ExitPreservesInv(s: State, c: ClientId)
    requires Inv(s) && IsChatting(s, c)
    ensures Inv(ExitChatRoom(s, c).state)
  {
    if s.sessions[c].currentRoom.Some? {
      var l := LeaveRoom(s, c);
      LeaveFrame(s, c);
      LeaveRegistries(s, c);
      LeaveCounter(s, c);
      LeaveNonEmpty(s, c, -1);
      LeaveMembership(s, c);
      ToLobbyPreservesInv(l, c);
    }
  }

  /** A session that is in no member list can have its current room cleared. */
  lemma ToLobbyPreservesInv(l: State, c: ClientId)
    requires WellFormed(l) && IsChatting(l, c)
    requires Registries(l) && Counter(l) && NonEmptyExcept(l, -1)
    requires MembersExcept(l, c) && PresentExcept(l, c) && AllNoDup(l)
    ensures Inv(l.(sessions := l.sessions[c := Chatting(l.sessions[c].nickname, None)]))
  {
    var e := l.(sessions := l.sessions[c := Chatting(l.sessions[c].nickname, None)]);
    assert Registries(e) by {
      forall n | n in e.clients ensures IsChatting(e, e.clients[n]) && e.sessions[e.clients[n]].nickname == n {
        assert IsChatting(l, l.clients[n]) && l.sessions[l.clients[n]].nickname == n;
      }
    }
    forall r, m | 0 <= r < |e.rooms| && m in e.rooms[r].members
      ensures IsChatting(e, m) && e.sessions[m].currentRoom == Some(r)
    {
      assert m != c && IsChatting(l, m) && l.sessions[m].currentRoom == Some(r);
    }
  }

  /** Joining `target`, which may be the one registered room still empty. */
  lemma EnterPreservesInv(s: State, c: ClientId, target: RoomRef)
    requires InvExcept(s, target) && IsChatting(s, c) && target < |s.rooms|
    ensures Inv(AddClient(LeaveRoom(s, c), c, target))
  {
    var l := LeaveRoom(s, c);
    LeaveFrame(s, c);
    LeaveCounter(s, c);
    LeaveNonEmpty(s, c, target);
    LeaveMembership(s, c);
    var a := AddClient(l, c, target);
    assert Registries(a) by {
      assert a.sessions == l.sessions[c := Chatting(s.sessions[c].nickname, Some(target))];
    }
    assert Counter(a) by {
      assert forall r :: 0 <= r < |a.rooms| ==> a.rooms[r].id == l.rooms[r].id;
    }
    EnterNonEmpty(l, c, target);
    EnterMembership(l, c, target);
  }

  lemma EnterNonEmpty(l: State, c: ClientId, target: RoomRef)
    requires WellFormed(l) && IsChatting(l, c) && target < |l.rooms| && NonEmptyExcept(l, target)
    ensures NonEmptyExcept(AddClient(l, c, target), -1)
  {
    var a := AddClient(l, c, target);
    forall k | k in a.chatRooms ensures a.rooms[a.chatRooms[k]].members != [] {
      if a.chatRooms[k] != target {
        assert a.rooms[a.chatRooms[k]] == l.rooms[a.chatRooms[k]];
      }
    }
  }

  lemma EnterMembership(l: State, c: ClientId, target: RoomRef)
    requires WellFormed(l) && IsChatting(l, c) && target < |l.rooms|
    requires MembersExcept(l, c) && PresentExcept(l, c) && AllNoDup(l)
    ensures Membership(AddClient(l, c, target))
  {
    var a := AddClient(l, c, target);
    assert c !in l.rooms[target].members;
    AddClientKeepsNoDup(l.rooms[target].members, c);
    forall r, m | 0 <= r < |a.rooms| && m in a.rooms[r].members
      ensures IsChatting(a, m) && a.sessions[m].currentRoom == Some(r)
    {
      if r != target {
        assert a.rooms[r] == l.rooms[r];
        assert m in l.rooms[r].members;
      } else if m != c {
        assert m in l.rooms[r].members;
      }
    }
    forall d | 0 <= d < |a.sessions| && a.sessions[d].Chatting? && a.sessions[d].currentRoom.Some?
      ensures d in a.rooms[a.sessions[d].currentRoom.value].members
    {
      if d != c {
        var q := a.sessions[d].currentRoom.value;
        assert d in l.rooms[q].members;
        if q == target {
          assert a.rooms[q].members == l.rooms[q].members + [c];
        } else {
          assert a.rooms[q] == l.rooms[q];
        }
      }
    }
    forall r | 0 <= r < |a.rooms| ensures NoDup(a.rooms[r].members) {
      if r != target {
        assert a.rooms[r] == l.rooms[r];
      }
    }
  }

  lemma JoinPreservesInv(s: State, c: ClientId, line: string)
    requires Inv(s) && IsChatting(s, c)
    ensures Inv(JoinChatRoom(s, c, line).state)
  {
    var parts := SplitOnce(line);
    if |parts| == 2 {
      match ParseInt(parts[1])
      case None => DisconnectPreservesInv(s, c);
      case Some(id) =>
        if id in s.chatRooms {
          EnterPreservesInv(s, c, s.chatRooms[id]);
        }
    }
  }

  /** The line `createChatRoom` hands to `joinChatRoom` names the new id. */
  lemma JoinLineNamesId(id: int)
    requires IsInt32(id)
    ensures var parts := SplitOnce(JoinCommand + " " + IntToString(id));
      |parts| == 2 && ParseInt(parts[1]) == Some(id)
  {
    SplitOnceJoined(JoinCommand, IntToString(id));
    ParseIntToString(id);
  }

  /** A freshly allocated room is registered under an id no room object had,
      and is the only registered room allowed to be empty. */
  lemma AllocateFacts(s: State)
    requires Inv(s) && s.nextRoomId < Int32Max
    ensures var a := AllocateRoom(s);
      && InvExcept(a, |s.rooms|)
      && s.nextRoomId !in s.chatRooms
      && (forall r :: 0 <= r < |s.rooms| ==> s.rooms[r].id != s.nextRoomId)
      && a.nextRoomId == s.nextRoomId + 1
      && a.chatRooms == s.chatRooms[s.nextRoomId := |s.rooms|]
      && a.rooms == s.rooms + [Room(s.nextRoomId, [])]
      && a.sessions == s.sessions && a.nicknames == s.nicknames && a.clients == s.clients
  {
    KeysBelowCounter(s);
    var a := AllocateRoom(s);
    assert forall r :: 0 <= r < |s.rooms| ==> a.rooms[r] == s.rooms[r];
  }

  lemma CreatePreservesInv(s: State, c: ClientId)
    requires Inv(s) && IsChatting(s, c) && s.nextRoomId < Int32Max
    ensures Inv(CreateChatRoom(s, c).state)
  {
    AllocateFacts(s);
    JoinLineNamesId(s.nextRoomId);
    EnterPreservesInv(AllocateRoom(s), c, |s.rooms|);
  }

  /** A session that is not in the command loop holds no registry entry and
      no room membership, so its phase can change freely. */
  lemma ReplaceUnregistered(s: State, c: ClientId, p: Phase)
    requires Inv(s) && c < |s.sessions| && !s.sessions[c].Chatting? && !p.Chatting?
    ensures Inv(s.(sessions := s.sessions[c := p]))
  {
    var s' := s.(sessions := s.sessions[c := p]);
    assert Registries(s') by {
      forall n | n in s'.clients ensures IsChatting(s', s'.clients[n]) && s'.sessions[s'.clients[n]].nickname == n {
        assert s.clients[n] != c;
      }
    }
    assert Membership(s') by {
      forall r, m | 0 <= r < |s'.rooms| && m in s'.rooms[r].members
        ensures IsChatting(s', m) && s'.sessions[m].currentRoom == Some(r)
      {
        assert m != c;
      }
    }
  }

  lemma OfferPreservesInv(s: State, c: ClientId, candidate: string)
    requires Inv(s) && c < |s.sessions| && !s.sessions[c].Chatting?
    ensures Inv(Offer(s, c, candidate).state)
  {
    if candidate in s.nicknames {
      ReplaceUnregistered(s, c, Retrying(candidate));
    } else {
      var s' := Offer(s, c, candidate).state;
      assert Registries(s') by {
        forall n | n in s'.clients ensures IsChatting(s', s'.clients[n]) && s'.sessions[s'.clients[n]].nickname == n {
          if n != candidate {
            assert s.clients[n] != c;
          }
        }
        forall d | 0 <= d < |s'.sessions| && s'.sessions[d].Chatting?
          ensures s'.sessions[d].nickname in s'.clients && s'.clients[s'.sessions[d].nickname] == d
        {
          if d != c {
            assert s.sessions[d].nickname != candidate;
          }
        }
      }
      assert Membership(s') by {
        forall r, m | 0 <= r < |s'.rooms| && m in s'.rooms[r].members
          ensures IsChatting(s', m) && s'.sessions[m].currentRoom == Some(r)
        {
          assert m != c;
        }
      }
    }
  }

  lemma AcceptPreservesInv(s: State, suffix: string)
    requires Inv(s)
    ensures Inv(Accept(s, suffix).state)
  {
    var s' := Accept(s, suffix).state;
    assert forall c :: 0 <= c < |s.sessions| ==> s'.sessions[c] == s.sessions[c];
    assert Membership(s') by {
      forall r, m | 0 <= r < |s'.rooms| && m in s'.rooms[r].members
        ensures IsChatting(s', m) && s'.sessions[m].currentRoom == Some(r)
      {
        assert IsChatting(s, m);
      }
    }
  }

  /** Every command keeps the invariant; only `/create` needs the counter
      below Integer.MAX_VALUE. */
  lemma DispatchPreservesInv(s: State, c: ClientId, line: string)
    requires Inv(s) && IsChatting(s, c)
    requires Classify(line) == Create ==> s.nextRoomId < Int32Max
    ensures Inv(Dispatch(s, c, line).state)
  {
    match Classify(line)
    case Bye => DisconnectPreservesInv(s, c);
    case Create => CreatePreservesInv(s, c);
    case Join => JoinPreservesInv(s, c, line);
    case ExitRoom => ExitPreservesInv(s, c);
    case _ =>
  }

  /** The delivery makes a registered session run `createChatRoom`. */
  predicate CreatesRoom(s: State, c: ClientId, e: Event) {
    IsChatting(s, c) && e.Line? && Classify(e.text) == Create
  }

  /** Every step keeps the invariant; a step that creates a room needs the
      counter below Integer.MAX_VALUE (where `nextRoomId++` wraps around). */
  lemma StepPreservesInv(s: State, c: ClientId, e: Event)
    requires Inv(s)
    requires CreatesRoom(s, c, e) ==> s.nextRoomId < Int32Max
    ensures Inv(Step(s, c, e).state)
  {
    if c < |s.sessions| {
      match s.sessions[c]
      case Ended(_) =>
      case AwaitingNickname(anonymous) =>
        match e {
          case Line(text) => OfferPreservesInv(s, c, if Blank(text) then anonymous else text);
          case EndOfStream =>
            var o := Offer(s, c, anonymous);
            OfferPreservesInv(s, c, anonymous);
            if o.state.sessions[c].Chatting? {
              DisconnectPreservesInv(o.state, c);
            } else {
              ReplaceUnregistered(o.state, c, Ended(None));
            }
          case ReadError => ReplaceUnregistered(s, c, Ended(None));
        }
      case Retrying(candidate) =>
        match e {
          case Line(text) => OfferPreservesInv(s, c, text);
          case _ => ReplaceUnregistered(s, c, Ended(if e == ReadError then Some(candidate) else None));
        }
      case Chatting(_, _) =>
        match e {
          case Line(text) => DispatchPreservesInv(s, c, text);
          case _ => DisconnectPreservesInv(s, c);
        }
    }
  }

  /** From a consistent state, any run short enough not to exhaust the room
      counter ends in a consistent state; in particular every run of fewer
      than 2^31 - 2 inputs from the initial state. */
  lemma {:induction false} RunPreservesInv(s: State, inputs: seq<Input>)
    requires Inv(s) && s.nextRoomId + |inputs| < Int32Max
    ensures Inv(Run(s, inputs))
    ensures Run(s, inputs).nextRoomId <= s.nextRoomId + |inputs|
    decreases |inputs|
  {
    if inputs != [] {
      var o := Apply(s, inputs[0]);
      match inputs[0] {
        case Connect(suffix) => AcceptPreservesInv(s, suffix);
        case Deliver(c, e) => StepPreservesInv(s, c, e);
      }
      RunPreservesInv(o.state, inputs[1..]);
    }
  }
}
