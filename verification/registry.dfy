/**
 * The relay's bookkeeping as values: the `games` dictionary from game id
 * to participant count and the `sockets` array of `{socket, gameId}`
 * records (app.js, line 23), with the functions that say what each
 * handler sends and the invariant that ties the two structures together.
 */
module Registry {
  import opened Wrappers
  import opened Wire

  type SocketId = string
  type GameId = string

  /** One element of the `sockets` array: a connection and the game it joined. */
  datatype Record = Record(socket: SocketId, gameId: GameId)

  /** One `io.to(to).emit("message", payload)`. */
  datatype Emit = Emit(to: SocketId, payload: Message)

  /** The participant count of game g; a missing key counts as 0. */
  function CountOf(games: map<GameId, nat>, g: GameId): (n: nat)
  {
    if g in games then games[g] else 0
  }

  /** The number of records of game g. */
  function Occurrences(sockets: seq<Record>, g: GameId): (n: nat)
    ensures n <= |sockets|
  {
    if sockets == [] then 0
    else
      var last := |sockets| - 1;
      Occurrences(sockets[..last], g) + (if sockets[last].gameId == g then 1 else 0)
  }

  /** A game has no participant counted exactly when no record carries its id. */
  lemma {:induction false} NoOccurrences(sockets: seq<Record>, g: GameId)
    ensures Occurrences(sockets, g) == 0 <==> forall k :: 0 <= k < |sockets| ==> sockets[k].gameId != g
  {
    if sockets != [] {
      var last := |sockets| - 1;
      var front := sockets[..last];
      NoOccurrences(front, g);
      assert forall k :: 0 <= k < last ==> front[k] == sockets[k];
    }
  }

  /**
   * The invariant linking the two structures: every key has a positive
   * count, and the count of every game is its number of records.
   */
  ghost predicate Consistent(games: map<GameId, nat>, sockets: seq<Record>)
  {
    && (forall g :: g in games ==> games[g] > 0)
    && (forall g :: CountOf(games, g) == Occurrences(sockets, g))
  }

  /** The index of the first element of xs that `want` accepts. */
  function First<T>(xs: seq<T>, want: T -> bool): (r: Option<nat>)
    ensures r.Some? ==> r.value < |xs| && want(xs[r.value])
    ensures r.Some? ==> forall k :: 0 <= k < r.value ==> !want(xs[k])
    ensures r.None? <==> forall k :: 0 <= k < |xs| ==> !want(xs[k])
  {
    if xs == [] then None
    else if want(xs[0]) then Some(0)
    else match First(xs[1..], want)
      case None => None
      case Some(j) => Some(j + 1)
  }

  /** A record of the sender's game that belongs to another connection. */
  predicate IsPeer(r: Record, g: Option<GameId>, self: SocketId)
  {
    g == Some(r.gameId) && r.socket != self
  }

  /** A record of the sender's game that belongs to the sender itself. */
  predicate IsOwn(r: Record, g: Option<GameId>, self: SocketId)
  {
    g == Some(r.gameId) && r.socket == self
  }

  /** The first record of game g held by a connection other than self. */
  function Peer(sockets: seq<Record>, g: Option<GameId>, self: SocketId): (r: Option<nat>)
  {
    First(sockets, r => IsPeer(r, g, self))
  }

  /** The first record of game g held by the connection self. */
  function Own(sockets: seq<Record>, g: Option<GameId>, self: SocketId): (r: Option<nat>)
  {
    First(sockets, r => IsOwn(r, g, self))
  }

  lemma OccurrencesSnoc(s: seq<Record>, r: Record, g: GameId)
    ensures Occurrences(s + [r], g) == Occurrences(s, g) + (if r.gameId == g then 1 else 0)
  {
    assert (s + [r])[..|s|] == s;
  }

  /** One emit of p to every record of game g, in array order. */
  function SendAll(sockets: seq<Record>, g: GameId, p: Message): (r: seq<Emit>)
    ensures |r| == Occurrences(sockets, g)
  {
    if sockets == [] then []
    else
      var last := |sockets| - 1;
      SendAll(sockets[..last], g, p) + (if sockets[last].gameId == g then [Emit(sockets[last].socket, p)] else [])
  }

  /** The emits of SendAll carry p, go to records of game g, and reach every such record. */
  lemma {:induction false} SendAllTargets(sockets: seq<Record>, g: GameId, p: Message)
    ensures var r := SendAll(sockets, g, p);
      && (forall e :: e in r ==> e.payload == p && exists k :: 0 <= k < |sockets| && sockets[k] == Record(e.to, g))
      && (forall k :: 0 <= k < |sockets| && sockets[k].gameId == g ==> Emit(sockets[k].socket, p) in r)
  {
    if sockets != [] {
      var last := |sockets| - 1;
      var front := sockets[..last];
      SendAllTargets(front, g, p);
      assert forall k :: 0 <= k < last ==> front[k] == sockets[k];
    }
  }

  lemma SendAllSnoc(s: seq<Record>, r: Record, g: GameId, p: Message)
    ensures SendAll(s + [r], g, p) == SendAll(s, g, p) + (if r.gameId == g then [Emit(r.socket, p)] else [])
  {
    assert (s + [r])[..|s|] == s;
  }

  /**
   * What `emitToGame` sends: p to every record of the game when its
   * count is exactly 2, and nothing otherwise (also when the connection
   * never joined and its game id is undefined).
   */
  function Broadcast(games: map<GameId, nat>, sockets: seq<Record>, g: Option<GameId>, p: Message): (r: seq<Emit>)
    ensures r != [] ==> g.Some? && CountOf(games, g.value) == 2
    ensures forall e :: e in r ==> e.payload == p
  {
    if g.Some? && CountOf(games, g.value) == 2 then
      SendAllTargets(sockets, g.value, p);
      SendAll(sockets, g.value, p)
    else []
  }

  /**
   * Under the invariant the broadcast gate opens exactly at count 2, and
   * then reaches both records of the game and only them.
   */
  lemma BroadcastGate(games: map<GameId, nat>, sockets: seq<Record>, g: GameId, p: Message)
    requires Consistent(games, sockets)
    ensures var r := Broadcast(games, sockets, Some(g), p);
      && (r != [] <==> CountOf(games, g) == 2)
      && (r != [] ==> |r| == 2)
      && (r != [] ==> forall k :: 0 <= k < |sockets| && sockets[k].gameId == g ==> Emit(sockets[k].socket, p) in r)
      && (forall e :: e in r ==> exists k :: 0 <= k < |sockets| && sockets[k] == Record(e.to, g))
  {
    SendAllTargets(sockets, g, p);
  }

  /**
   * What the "data" handler sends for payload d from connection self of
   * game g: a rematch acceptance becomes the restart broadcast; every
   * other payload is rewritten and sent to the first record of the same
   * game held by another connection, or dropped when there is none.
   */
  function Route(games: map<GameId, nat>, sockets: seq<Record>, self: SocketId, g: Option<GameId>, d: Data): (r: seq<Emit>)
    ensures d.AcceptRematch? ==> r == Broadcast(games, sockets, g, Restart)
    ensures d.AcceptRematch? ==> forall e :: e in r ==> e.payload == Restart
    ensures d.AcceptRematch? && r != [] ==> g.Some? && CountOf(games, g.value) == 2
    ensures !d.AcceptRematch? ==> |r| <= 1
    ensures !d.AcceptRematch? ==> (r != [] <==> exists k :: 0 <= k < |sockets| && IsPeer(sockets[k], g, self))
    ensures !d.AcceptRematch? && r != [] ==>
      && r[0].payload == Rewrite(d).msg
      && exists k :: 0 <= k < |sockets| && IsPeer(sockets[k], g, self) && r[0].to == sockets[k].socket
                  && forall k' :: 0 <= k' < k ==> !IsPeer(sockets[k'], g, self)
  {
    match Rewrite(d)
    case RestartGame => Broadcast(games, sockets, g, Restart)
    case Forward(m) =>
      match Peer(sockets, g, self)
      case Some(j) => [Emit(sockets[j].socket, m)]
      case None => []
  }

  /** The array with its element at index i spliced out. */
  function RemoveAt<T>(s: seq<T>, i: nat): (r: seq<T>)
    requires i < |s|
    ensures |r| == |s| - 1
    ensures forall k :: 0 <= k < i ==> r[k] == s[k]
    ensures forall k :: i <= k < |r| ==> r[k] == s[k + 1]
  {
    s[..i] + s[i + 1..]
  }

  /**
   * The "opponent-dc" notice when a game drops to one participant: it
   * goes to the first record of the game held by another connection, the
   * same peer the "data" handler routes to.
   */
  function Notify(sockets: seq<Record>, g: GameId, self: SocketId): (r: seq<Emit>)
    ensures |r| <= 1
    ensures r == [] <==> forall k :: 0 <= k < |sockets| ==> !IsPeer(sockets[k], Some(g), self)
    ensures r != [] ==>
      && r[0].payload == OpponentDc
      && exists k :: 0 <= k < |sockets| && IsPeer(sockets[k], Some(g), self) && r[0].to == sockets[k].socket
  {
    match Peer(sockets, Some(g), self)
    case Some(j) => [Emit(sockets[j].socket, OpponentDc)]
    case None => []
  }

  lemma {:induction false} OccurrencesAppend(a: seq<Record>, b: seq<Record>, g: GameId)
    ensures Occurrences(a + b, g) == Occurrences(a, g) + Occurrences(b, g)
    decreases |b|
  {
    if b != [] {
      var last := |b| - 1;
      assert (a + b)[..|a + b| - 1] == a + b[..last];
      OccurrencesAppend(a, b[..last], g);
    } else {
      assert a + b == a;
    }
  }

  /** Splicing out record i lowers the count of its game by one and leaves the others alone. */
  lemma OccurrencesRemoveAt(s: seq<Record>, i: nat, g: GameId)
    requires i < |s|
    ensures Occurrences(RemoveAt(s, i), g) == Occurrences(s, g) - (if s[i].gameId == g then 1 else 0)
  {
    assert s == s[..i] + ([s[i]] + s[i + 1..]);
    OccurrencesAppend(s[..i], [s[i]] + s[i + 1..], g);
    OccurrencesAppend([s[i]], s[i + 1..], g);
    OccurrencesAppend(s[..i], s[i + 1..], g);
    assert Occurrences([s[i]], g) == Occurrences([], g) + (if s[i].gameId == g then 1 else 0) by {
      assert [s[i]][..0] == [];
    }
  }

  /** `join` keeps the invariant: one more record and one more participant for the same game. */
  lemma JoinKeepsConsistent(games: map<GameId, nat>, sockets: seq<Record>, r: Record)
    requires Consistent(games, sockets)
    ensures Consistent(games[r.gameId := CountOf(games, r.gameId) + 1], sockets + [r])
  {
    var games', sockets' := games[r.gameId := CountOf(games, r.gameId) + 1], sockets + [r];
    forall g ensures CountOf(games', g) == Occurrences(sockets', g) {
      assert sockets'[..|sockets'| - 1] == sockets;
    }
  }

  /**
   * Nothing caps a game at two participants: a further join raises the
   * count past 2, and the broadcast gate is shut while the count exceeds 2.
   */
  lemma JoinBeyondTwo(games: map<GameId, nat>, sockets: seq<Record>, r: Record, p: Message)
    requires Consistent(games, sockets) && CountOf(games, r.gameId) == 2
    ensures var games' := games[r.gameId := CountOf(games, r.gameId) + 1];
      && CountOf(games', r.gameId) == 3
      && Consistent(games', sockets + [r])
      && Broadcast(games', sockets + [r], Some(r.gameId), p) == []
  {
    JoinKeepsConsistent(games, sockets, r);
  }

  /**
   * `games[gameId]--`, with the key deleted when the count reaches 0:
   * the games dictionary as `disconnect` leaves it.
   */
  function Decrement(games: map<GameId, nat>, g: GameId): (r: map<GameId, nat>)
    ensures CountOf(games, g) > 0 ==> CountOf(r, g) == CountOf(games, g) - 1
    ensures g in r <==> CountOf(games, g) > 1
    ensures forall h :: h != g ==> CountOf(r, h) == CountOf(games, h) && (h in r <==> h in games)
  {
    if CountOf(games, g) <= 1 then games - {g} else games[g := games[g] - 1]
  }

  /**
   * `disconnect` keeps the invariant: the record it splices out is
   * matched by the participant it removes, and a game whose count reaches
   * 0 has no record left.
   */
  lemma LeaveKeepsConsistent(games: map<GameId, nat>, sockets: seq<Record>, i: nat)
    requires Consistent(games, sockets) && i < |sockets|
    ensures CountOf(games, sockets[i].gameId) > 0
    ensures Consistent(Decrement(games, sockets[i].gameId), RemoveAt(sockets, i))
    ensures CountOf(games, sockets[i].gameId) == 1 ==>
      forall k :: 0 <= k < |sockets| - 1 ==> RemoveAt(sockets, i)[k].gameId != sockets[i].gameId
  {
    var g := sockets[i].gameId;
    NoOccurrences(sockets, g);
    NoOccurrences(RemoveAt(sockets, i), g);
    var games', sockets' := Decrement(games, g), RemoveAt(sockets, i);
    forall h ensures CountOf(games', h) == Occurrences(sockets', h) {
      OccurrencesRemoveAt(sockets, i, h);
    }
  }

  /** A game with exactly one record has it at exactly one index. */
  lemma {:induction false} SingleOccurrence(s: seq<Record>, g: GameId, a: nat, b: nat)
    requires Occurrences(s, g) == 1
    requires a < |s| && b < |s| && s[a].gameId == g && s[b].gameId == g
    ensures a == b
    decreases |s|
  {
    var last := |s| - 1;
    var front := s[..last];
    NoOccurrences(front, g);
    if a != last && b != last {
      assert front[a] == s[a] && front[b] == s[b];
      SingleOccurrence(front, g, a, b);
    }
  }

  /**
   * When one of a game's two participants leaves, the notice goes to the
   * game's other record, unless that record belongs to the leaving
   * connection too (it joined twice), in which case nobody is notified.
   */
  lemma LeaveAtTwoNotifiesOther(games: map<GameId, nat>, sockets: seq<Record>, g: GameId, self: SocketId, i: nat)
    requires Consistent(games, sockets)
    requires Own(sockets, Some(g), self) == Some(i)
    requires CountOf(games, g) == 2
    ensures exists k :: 0 <= k < |sockets| && k != i && sockets[k].gameId == g
    ensures forall k :: 0 <= k < |sockets| && k != i && sockets[k].gameId == g ==>
      Notify(sockets, g, self) == if sockets[k].socket != self then [Emit(sockets[k].socket, OpponentDc)] else []
  {
    var rest := RemoveAt(sockets, i);
    OccurrencesRemoveAt(sockets, i, g);
    assert Occurrences(rest, g) == 1;
    NoOccurrences(rest, g);
    var m :| 0 <= m < |rest| && rest[m].gameId == g;
    var k := if m < i then m else m + 1;
    assert sockets[k] == rest[m];
    forall k' | 0 <= k' < |sockets| && k' != i && sockets[k'].gameId == g
      ensures Notify(sockets, g, self) == if sockets[k'].socket != self then [Emit(sockets[k'].socket, OpponentDc)] else []
    {
      var m' := if k' < i then k' else k' - 1;
      assert rest[m'] == sockets[k'];
      SingleOccurrence(rest, g, m, m');
      assert k' == k;
      forall j | 0 <= j < |sockets| && IsPeer(sockets[j], Some(g), self) ensures j == k {
        assert j != i;
        var mj := if j < i then j else j - 1;
        assert rest[mj] == sockets[j];
        SingleOccurrence(rest, g, m, mj);
      }
    }
  }

  // The opponent app.js notifies as written, and what it gets wrong.

  /**
   * The connection app.js notifies when a game drops to one participant:
   * the record at index 1 - i of the array before the splice, where i is
   * the leaving record. None where that index lies outside the array, so
   * that reading its `socket` throws a TypeError.
   */
  function WrittenOpponent(sockets: seq<Record>, i: nat): (r: Option<SocketId>)
    ensures r.None? <==> i > 1 || 1 - i >= |sockets|
    ensures r.Some? ==> exists k :: 0 <= k < |sockets| && k != i && sockets[k].socket == r.value
    ensures r.Some? ==> r.value == sockets[1 - i].socket
  {
    if i <= 1 && 1 - i < |sockets| then Some(sockets[1 - i].socket) else None
  }

  /**
   * With exactly the two records of one game in the array, index 1 - i is
   * the other player, the same connection `Notify` picks.
   */
  lemma WrittenOpponentAgrees(sockets: seq<Record>, g: GameId, self: SocketId, i: nat)
    requires |sockets| == 2 && sockets[0].gameId == g && sockets[1].gameId == g
    requires sockets[0].socket != sockets[1].socket
    requires Own(sockets, Some(g), self) == Some(i)
    ensures WrittenOpponent(sockets, i).Some?
    ensures Notify(sockets, g, self) == [Emit(WrittenOpponent(sockets, i).value, OpponentDc)]
  {
    assert IsPeer(sockets[1 - i], Some(g), self);
  }

  /**
   * With two games in progress, the first player to leave game g1 makes
   * app.js warn a player of game g2, while g1's remaining player is never
   * told.
   */
  lemma WrittenOpponentMisroutes()
    ensures var s := [Record("A1", "g1"), Record("A2", "g2"), Record("B1", "g1"), Record("B2", "g2")];
      && Consistent(map["g1" := 2, "g2" := 2], s)
      && Own(s, Some("g1"), "A1") == Some(0)
      && WrittenOpponent(s, 0) == Some("A2") && s[1].gameId != "g1"
      && Notify(s, "g1", "A1") == [Emit("B1", OpponentDc)]
  {
    var s := [Record("A1", "g1"), Record("A2", "g2"), Record("B1", "g1"), Record("B2", "g2")];
    forall g ensures CountOf(map["g1" := 2, "g2" := 2], g) == Occurrences(s, g) {
      OccurrencesSnoc([], s[0], g);
      OccurrencesSnoc([s[0]], s[1], g);
      OccurrencesSnoc([s[0], s[1]], s[2], g);
      OccurrencesSnoc([s[0], s[1], s[2]], s[3], g);
      assert [] + [s[0]] == [s[0]] && [s[0]] + [s[1]] == [s[0], s[1]];
      assert [s[0], s[1]] + [s[2]] == [s[0], s[1], s[2]] && [s[0], s[1], s[2]] + [s[3]] == s;
    }
    assert IsOwn(s[0], Some("g1"), "A1");
    assert IsPeer(s[2], Some("g1"), "A1");
  }

  /**
   * When the leaving record is not among the first two, index 1 - i is
   * negative: app.js throws after lowering the count and before the
   * splice, so the count and the array disagree from then on, and the
   * remaining player A is not told.
   */
  lemma WrittenOpponentThrows()
    ensures var s := [Record("X", "h"), Record("A", "g"), Record("B", "g")];
      && Consistent(map["h" := 1, "g" := 2], s)
      && Own(s, Some("g"), "B") == Some(2)
      && WrittenOpponent(s, 2).None?
      && !Consistent(Decrement(map["h" := 1, "g" := 2], "g"), s)
      && Notify(s, "g", "B") == [Emit("A", OpponentDc)]
  {
    var s := [Record("X", "h"), Record("A", "g"), Record("B", "g")];
    forall g ensures CountOf(map["h" := 1, "g" := 2], g) == Occurrences(s, g) {
      OccurrencesSnoc([], s[0], g);
      OccurrencesSnoc([s[0]], s[1], g);
      OccurrencesSnoc([s[0], s[1]], s[2], g);
      assert [] + [s[0]] == [s[0]] && [s[0]] + [s[1]] == [s[0], s[1]] && [s[0], s[1]] + [s[2]] == s;
    }
    assert CountOf(Decrement(map["h" := 1, "g" := 2], "g"), "g") == 1 != Occurrences(s, "g");
    assert !IsOwn(s[0], Some("g"), "B") && !IsOwn(s[1], Some("g"), "B") && IsOwn(s[2], Some("g"), "B");
    assert IsPeer(s[1], Some("g"), "B");
  }
}
