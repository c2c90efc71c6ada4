/**
 * The socket.io handlers of app.js over the relay's state. Each handler
 * runs to completion on the event loop, so each is one method. An emit
 * is an append to `outbox`; the database removal on teardown is an
 * append to `deletions`.
 */
module Relay {
  import opened Wrappers
  import opened Wire
  import opened Registry

  /** One connection, with the `gameId` its handlers share; set by its first join. */
  class Connection {
    const id: SocketId
    var gameId: Option<GameId>

    constructor (id: SocketId)
      ensures this.id == id && gameId == None
    {
      this.id := id;
      gameId := None;
    }
  }

  /** The state shared by all connections: `games`, `sockets` and what has been sent. */
  class Server {
    var games: map<GameId, nat>
    var sockets: seq<Record>
    var outbox: seq<Emit>
    var deletions: seq<GameId>   // game ids whose database record removal was requested

    ghost predicate Valid()
      reads this
    {
      Consistent(games, sockets)
    }

    constructor ()
      ensures Valid()
      ensures games == map[] && sockets == [] && outbox == [] && deletions == []
    {
      games, sockets, outbox, deletions := map[], [], [], [];
    }

    /** `emitToGame`: p to every record of the game, only when its count is exactly 2. */
    method EmitToGame(g: Option<GameId>, p: Message)
      modifies this`outbox
      ensures outbox == old(outbox) + Broadcast(games, sockets, g, p)
    {
      if g.None? || CountOf(games, g.value) != 2 {
        return;
      }
      var i := 0;
      while i < |sockets|
        invariant 0 <= i <= |sockets|
        invariant outbox == old(outbox) + SendAll(sockets[..i], g.value, p)
      {
        assert sockets[..i + 1] == sockets[..i] + [sockets[i]];
        SendAllSnoc(sockets[..i], sockets[i], g.value, p);
        if sockets[i].gameId == g.value {
          outbox := outbox + [Emit(sockets[i].socket, p)];
        }
        i := i + 1;
      }
      assert sockets[..i] == sockets;
    }

    /** The loop of the "data" handler: the first record of game g held by another connection. */
    method FindPeer(g: Option<GameId>, self: SocketId) returns (j: Option<nat>)
      ensures j == Peer(sockets, g, self)
    {
      var i := 0;
      while i < |sockets|
        invariant 0 <= i <= |sockets|
        invariant forall k :: 0 <= k < i ==> !IsPeer(sockets[k], g, self)
      {
        if g == Some(sockets[i].gameId) && sockets[i].socket != self {
          return Some(i);
        }
        i := i + 1;
      }
      return None;
    }

    /** The loop of the "disconnect" handler: the first record of game g held by self. */
    method FindOwn(g: Option<GameId>, self: SocketId) returns (j: Option<nat>)
      ensures j == Own(sockets, g, self)
    {
      var i := 0;
      while i < |sockets|
        invariant 0 <= i <= |sockets|
        invariant forall k :: 0 <= k < i ==> !IsOwn(sockets[k], g, self)
      {
        if g == Some(sockets[i].gameId) && sockets[i].socket == self {
          return Some(i);
        }
        i := i + 1;
      }
      return None;
    }

    /**
     * The "join" handler: the first join fixes the connection's game id,
     * every join appends one record under that id and adds one
     * participant, with no upper bound, and "ready" goes out when the
     * count is exactly 2.
     */
    method OnJoin(c: Connection, id: GameId)
      requires Valid()
      modifies this, c
      ensures Valid()
      ensures c.gameId == if old(c.gameId).None? then Some(id) else old(c.gameId)
      ensures c.gameId.Some?
      ensures sockets == old(sockets) + [Record(c.id, c.gameId.value)]
      ensures games == old(games)[c.gameId.value := CountOf(old(games), c.gameId.value) + 1]
      ensures outbox == old(outbox) + Broadcast(games, sockets, c.gameId, Ready)
      ensures deletions == old(deletions)
    {
      if c.gameId.None? {
        c.gameId := Some(id);
      }
      var g := c.gameId.value;
      JoinKeepsConsistent(games, sockets, Record(c.id, g));
      sockets := sockets + [Record(c.id, g)];
      games := games[g := CountOf(games, g) + 1];
      EmitToGame(c.gameId, Ready);
    }

    /**
     * The "data" handler: a rematch acceptance restarts the whole game;
     * any other payload is rewritten and sent to the first other record
     * of the sender's game, if there is one.
     */
    method OnData(c: Connection, d: Data)
      modifies this`outbox
      ensures outbox == old(outbox) + Route(games, sockets, c.id, c.gameId, d)
    {
      var reply := Rewrite(d);
      if reply.RestartGame? {
        EmitToGame(c.gameId, Restart);
        return;
      }
      var j := FindPeer(c.gameId, c.id);
      if j.Some? {
        outbox := outbox + [Emit(sockets[j.value].socket, reply.msg)];
      }
    }

    /**
     * The "disconnect" handler: the connection's first record is spliced
     * out and its game loses one participant; at one participant left the
     * other player is told, at none the game is forgotten and its database
     * record removal is requested. A connection with no record changes
     * nothing.
     */
    method OnDisconnect(c: Connection)
      requires Valid()
      modifies this
      ensures Valid()
      ensures Own(old(sockets), c.gameId, c.id).None? ==>
        games == old(games) && sockets == old(sockets) && outbox == old(outbox) && deletions == old(deletions)
      ensures Own(old(sockets), c.gameId, c.id).Some? ==>
        var i, g := Own(old(sockets), c.gameId, c.id).value, c.gameId.value;
        var n := CountOf(old(games), g) - 1;
        && sockets == RemoveAt(old(sockets), i)
        && games == Decrement(old(games), g)
        && outbox == old(outbox) + (if n == 1 then Notify(old(sockets), g, c.id) else [])
        && deletions == old(deletions) + (if n == 0 then [g] else [])
    {
      var found := FindOwn(c.gameId, c.id);
      if found.None? {
        return;
      }
      var i := found.value;
      var g := sockets[i].gameId;
      LeaveKeepsConsistent(games, sockets, i);
      var n := CountOf(games, g) - 1;
      if n == 1 {
        var j := FindPeer(c.gameId, c.id);
        if j.Some? {
          outbox := outbox + [Emit(sockets[j.value].socket, OpponentDc)];
        }
      } else if n == 0 {
        deletions := deletions + [g];
      }
      games := Decrement(games, g);
      sockets := RemoveAt(sockets, i);
    }
  }
}
