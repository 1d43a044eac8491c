/** What one step of the server asks its collaborators to do: write a line
    to a session's socket, write a batch of lines whose order the source
    leaves to a hash table, or append a line to a room's history file. */
module Output {
  import opened ChatRoom

  datatype Effect =
    | Send(to: ClientId, line: string)
    /** Each line once, in the iteration order of a HashSet/HashMap. */
    | SendEach(to: ClientId, lines: set<string>)
    /** `saveChatHistory`: one line appended to `chat_history/<roomId>.txt`. */
    | AppendHistory(roomId: int, line: string)

  /** `ChatRoom.broadcastMessage`: the message goes to every entry of the
      member list, in list order. */
  function Broadcast(members: seq<ClientId>, message: string): (out: seq<Effect>)
    ensures |out| == |members|
    ensures forall i :: 0 <= i < |out| ==> out[i] == Send(members[i], message)
  {
    if members == [] then []
    else [Send(members[0], message)] + Broadcast(members[1..], message)
  }

  /** How many of the effects write `line` to client `to`. */
  function CountSends(out: seq<Effect>, to: ClientId, line: string): nat
  {
    if out == [] then 0
    else (if out[0] == Send(to, line) then 1 else 0) + CountSends(out[1..], to, line)
  }

  lemma {:induction false} CountSendsAppend(a: seq<Effect>, b: seq<Effect>, to: ClientId, line: string)
    ensures CountSends(a + b, to, line) == CountSends(a, to, line) + CountSends(b, to, line)
  {
    if a != [] {
      assert (a + b)[1..] == a[1..] + b;
      CountSendsAppend(a[1..], b, to, line);
    } else {
      assert a + b == b;
    }
  }

  /** Every client receives a broadcast as often as it appears in the member
      list; on a duplicate-free list that is once for members, never for others. */
  lemma {:induction false} BroadcastReachesEachMemberOnce(members: seq<ClientId>, message: string, c: ClientId)
    requires NoDup(members)
    ensures CountSends(Broadcast(members, message), c, message) == (if c in members then 1 else 0)
  {
    if members != [] {
      var out := Broadcast(members, message);
      assert out == [Send(members[0], message)] + Broadcast(members[1..], message);
      assert out[1..] == Broadcast(members[1..], message);
      NoDupTail(members);
      BroadcastReachesEachMemberOnce(members[1..], message, c);
      assert c in members <==> c == members[0] || c in members[1..] by {
        assert members == [members[0]] + members[1..];
      }
    }
  }

  /** A broadcast followed by a history append writes the message to each
      member once and to nobody else. */
  lemma BroadcastThenRecord(members: seq<ClientId>, message: string, roomId: int, c: ClientId)
    requires NoDup(members)
    ensures CountSends(Broadcast(members, message) + [AppendHistory(roomId, message)], c, message)
            == (if c in members then 1 else 0)
  {
    CountSendsAppend(Broadcast(members, message), [AppendHistory(roomId, message)], c, message);
    BroadcastReachesEachMemberOnce(members, message, c);
    assert CountSends([AppendHistory(roomId, message)], c, message) == 0 by {
      assert [AppendHistory(roomId, message)][1..] == [];
    }
  }
}
