/** A chat room's member list (`ChatRoom.clients`, an ArrayList of sessions)
    and the two list operations the room performs on it. */
module ChatRoom {

  /** A session (a ClientHandler), identified by the order of its connection. */
  type ClientId = nat

  datatype Room = Room(id: int, members: seq<ClientId>)

  predicate NoDup(xs: seq<ClientId>) {
    forall i, j :: 0 <= i < j < |xs| ==> xs[i] != xs[j]
  }

  /** Position of the first occurrence of x. */
  function IndexOf(xs: seq<ClientId>, x: ClientId): (i: nat)
    requires x in xs
    ensures i < |xs| && xs[i] == x && x !in xs[..i]
  {
    if xs[0] == x then 0
    else
      var j := IndexOf(xs[1..], x);
      assert xs[..j + 1] == [xs[0]] + xs[1..][..j];
      j + 1
  }

  /** `ArrayList.remove(Object)`: drop the first occurrence of x, if any,
      keeping the order of the others. */
  function RemoveFirst(xs: seq<ClientId>, x: ClientId): (ys: seq<ClientId>)
    ensures forall m :: m in ys ==> m in xs
    ensures x !in xs ==> ys == xs
    ensures x in xs ==> |ys| == |xs| - 1
  {
    if x in xs then
      var i := IndexOf(xs, x);
      var ys := xs[..i] + xs[i + 1..];
      assert forall m :: m in ys ==> m in xs[..i] || m in xs[i + 1..];
      ys
    else
      xs
  }

  /** As a bag, the result is the input less one copy of x. */
  lemma RemoveFirstMultiset(xs: seq<ClientId>, x: ClientId)
    ensures multiset(RemoveFirst(xs, x)) == multiset(xs) - multiset{x}
  {
    if x in xs {
      var i := IndexOf(xs, x);
      assert xs == xs[..i] + [x] + xs[i + 1..];
    }
  }

  /** RemoveFirst is `ArrayList.remove(Object)`: it cuts out exactly the
      first occurrence of x and keeps the others in order. */
  lemma RemoveFirstCutsFirst(xs: seq<ClientId>, x: ClientId)
    requires x in xs
    ensures exists i :: 0 <= i < |xs| && xs[i] == x && x !in xs[..i] && RemoveFirst(xs, x) == xs[..i] + xs[i + 1..]
  {
    var i := IndexOf(xs, x);
    assert xs[i] == x && x !in xs[..i] && RemoveFirst(xs, x) == xs[..i] + xs[i + 1..];
  }

  /** Dropping the head of a duplicate-free list leaves one without the head. */
  lemma NoDupTail(xs: seq<ClientId>)
    requires NoDup(xs) && xs != []
    ensures NoDup(xs[1..]) && xs[0] !in xs[1..]
  {
    forall a, b | 0 <= a < b < |xs[1..]| ensures xs[1..][a] != xs[1..][b] {
      assert xs[1..][a] == xs[a + 1] && xs[1..][b] == xs[b + 1];
    }
    forall j | 0 <= j < |xs[1..]| ensures xs[1..][j] != xs[0] {
      assert xs[1..][j] == xs[j + 1];
    }
  }

  /** On a duplicate-free list RemoveFirst removes x altogether and keeps
      every other member. */
  lemma RemoveFirstNoDup(xs: seq<ClientId>, x: ClientId)
    requires NoDup(xs)
    ensures NoDup(RemoveFirst(xs, x))
    ensures forall m :: m in RemoveFirst(xs, x) <==> m in xs && m != x
  {
    if x in xs {
      var i := IndexOf(xs, x);
      DeleteAt(xs, i);
    }
  }

  /** Deleting index i from a duplicate-free list removes exactly xs[i]. */
  lemma DeleteAt(xs: seq<ClientId>, i: nat)
    requires NoDup(xs) && i < |xs|
    ensures NoDup(xs[..i] + xs[i + 1..])
    ensures forall m :: m in xs[..i] + xs[i + 1..] <==> m in xs && m != xs[i]
  {
    var ys := xs[..i] + xs[i + 1..];
    assert forall a :: 0 <= a < i ==> ys[a] == xs[a];
    assert forall a :: i <= a < |ys| ==> ys[a] == xs[a + 1];
    forall m ensures m in ys <==> m in xs && m != xs[i] {
      if m in ys {
        var a :| 0 <= a < |ys| && ys[a] == m;
        if a < i { assert xs[a] == m; } else { assert xs[a + 1] == m; }
      }
      if m in xs && m != xs[i] {
        var k :| 0 <= k < |xs| && xs[k] == m;
        if k < i { assert ys[k] == m; } else { assert ys[k - 1] == m; }
      }
    }
  }

  /** `ChatRoom.addClient`: append at the end of the list. */
  lemma AddClientKeepsNoDup(xs: seq<ClientId>, x: ClientId)
    requires NoDup(xs) && x !in xs
    ensures NoDup(xs + [x])
  {
  }
}
