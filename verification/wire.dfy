/**
 * The payloads of the real-time channel and the rewrite the relay applies
 * to every inbound "data" payload before it reaches the other player
 * (app.js, the body of the "data" handler).
 */
module Wire {
  import opened Wrappers

  /** The board is 8 by 8; a coordinate on it lies in 0..7. */
  predicate OnBoard(v: int) { 0 <= v <= 7 }

  /**
   * Each player sees the board from their own side, so the square a
   * player calls v is 7 - v for the opponent.
   */
  function Mirror(v: int): (r: int)
    ensures OnBoard(v) <==> OnBoard(r)
  {
    7 - v
  }

  /** Mirroring is its own inverse. */
  lemma MirrorInvolutive(v: int)
    ensures Mirror(Mirror(v)) == v
  {
  }

  /** A pawn promotion: the square it happens on and the piece chosen. */
  datatype Promotion = Promotion(x: int, y: int, piece: string)

  /** The `type` strings the relay treats specially. */
  const HandledKinds: set<string> := {"move", "remove", "history", "game-over", "accept-rematch"}

  /** Any other `type` string. */
  type OtherKind = k: string | k !in HandledKinds witness ""

  /** An inbound "data" payload, told apart by its `type` field. */
  datatype Data =
    | Move(x: int, y: int, dX: int, dY: int, promotion: Option<Promotion>)
    | Remove(x: int, y: int)
    | History(notation: string)
    | GameOver(colorWon: string, quit: bool)
    | AcceptRematch
    | Other(kind: OtherKind)

  /** An outbound "message" payload. */
  datatype Message =
    | Move(x: int, y: int, dX: int, dY: int, promotion: Option<Promotion>)
    | Remove(x: int, y: int)
    | History(notation: string)
    | GameOver(colorWon: string, quit: bool)
    | TypeOnly(kind: string)          // `{type}` and no other field
    | State(msg: string)              // `{type: "state", msg}`
    | OpponentDc                      // `{type: "opponent-dc"}`

  const Ready: Message := State("ready")
  const Restart: Message := State("restart")

  /** The `type` field of an inbound payload. */
  function KindOf(d: Data): (k: string)
  {
    match d
    case Move(_, _, _, _, _) => "move"
    case Remove(_, _) => "remove"
    case History(_) => "history"
    case GameOver(_, _) => "game-over"
    case AcceptRematch => "accept-rematch"
    case Other(k) => k
  }

  /** The `type` field of an outbound payload. */
  function TypeOf(m: Message): (k: string)
  {
    match m
    case Move(_, _, _, _, _) => "move"
    case Remove(_, _) => "remove"
    case History(_) => "history"
    case GameOver(_, _) => "game-over"
    case TypeOnly(k) => k
    case State(_) => "state"
    case OpponentDc => "opponent-dc"
  }

  /** Every square named by an inbound payload lies on the board. */
  predicate DataOnBoard(d: Data)
  {
    match d
    case Move(x, y, dX, dY, p) =>
      OnBoard(x) && OnBoard(y) && OnBoard(dX) && OnBoard(dY) &&
      (p.Some? ==> OnBoard(p.value.x) && OnBoard(p.value.y))
    case Remove(x, y) => OnBoard(x) && OnBoard(y)
    case _ => true
  }

  /** Every square named by an outbound payload lies on the board. */
  predicate MessageOnBoard(m: Message)
  {
    match m
    case Move(x, y, dX, dY, p) =>
      OnBoard(x) && OnBoard(y) && OnBoard(dX) && OnBoard(dY) &&
      (p.Some? ==> OnBoard(p.value.x) && OnBoard(p.value.y))
    case Remove(x, y) => OnBoard(x) && OnBoard(y)
    case _ => true
  }

  /** What the relay does with one inbound payload. */
  datatype Reply =
    | Forward(msg: Message)   // send the rewritten payload to the other player
    | RestartGame             // broadcast the restart state to the whole game

  function MirrorPromotion(p: Option<Promotion>): (r: Option<Promotion>)
    ensures r.Some? <==> p.Some?
    ensures p.Some? ==> r.value.piece == p.value.piece
  {
    match p
    case None => None
    case Some(q) => Some(Promotion(Mirror(q.x), Mirror(q.y), q.piece))
  }

  /**
   * The rewrite of app.js's "data" handler: coordinates of a move or a
   * removal are mirrored, history and game-over fields are copied, a
   * rematch acceptance becomes a restart, and any other payload is
   * reduced to its `type`.
   */
  function Rewrite(d: Data): (r: Reply)
    ensures r.RestartGame? <==> d.AcceptRematch?
    ensures r.Forward? ==> TypeOf(r.msg) == KindOf(d)
    ensures r.Forward? && DataOnBoard(d) ==> MessageOnBoard(r.msg)
  {
    match d
    case Move(x, y, dX, dY, p) =>
      Forward(Message.Move(Mirror(x), Mirror(y), Mirror(dX), Mirror(dY), MirrorPromotion(p)))
    case Remove(x, y) => Forward(Message.Remove(Mirror(x), Mirror(y)))
    case History(n) => Forward(Message.History(n))
    case GameOver(c, q) => Forward(Message.GameOver(c, q))
    case AcceptRematch => RestartGame
    case Other(k) => Forward(TypeOnly(k))
  }

  /**
   * The inbound payload a player produces by sending a received message
   * back unchanged; None for the relay's own state messages.
   */
  function Resend(m: Message): (r: Option<Data>)
    ensures r.Some? ==> KindOf(r.value) == TypeOf(m)
  {
    match m
    case Move(x, y, dX, dY, p) => Some(Data.Move(x, y, dX, dY, p))
    case Remove(x, y) => Some(Data.Remove(x, y))
    case History(n) => Some(Data.History(n))
    case GameOver(c, q) => Some(Data.GameOver(c, q))
    case TypeOnly(k) => if k in HandledKinds then None else Some(Other(k))
    case State(_) => None
    case OpponentDc => None
  }

  /** A move reaches the opponent with every square mirrored and the promotion piece kept. */
  lemma MoveMirrored(x: int, y: int, dX: int, dY: int, p: Option<Promotion>)
    ensures var r := Rewrite(Data.Move(x, y, dX, dY, p));
      && r.Forward? && r.msg.Move?
      && r.msg.x + x == 7 && r.msg.y + y == 7 && r.msg.dX + dX == 7 && r.msg.dY + dY == 7
      && r.msg.promotion.Some? == p.Some?
      && (p.Some? ==>
            && r.msg.promotion.value.x + p.value.x == 7
            && r.msg.promotion.value.y + p.value.y == 7
            && r.msg.promotion.value.piece == p.value.piece)
  {
  }

  /** A removal reaches the opponent with its square mirrored. */
  lemma RemoveMirrored(x: int, y: int)
    ensures var r := Rewrite(Data.Remove(x, y));
      r.Forward? && r.msg.Remove? && r.msg.x + x == 7 && r.msg.y + y == 7
  {
  }

  /**
   * History notation and the game-over fields reach the opponent as sent,
   * and a payload of any other type reaches it reduced to that type.
   */
  lemma FieldsCopied(d: Data)
    ensures d.History? ==> Rewrite(d) == Forward(Message.History(d.notation))
    ensures d.GameOver? ==> Rewrite(d) == Forward(Message.GameOver(d.colorWon, d.quit))
    ensures d.Other? ==> Rewrite(d) == Forward(TypeOnly(d.kind))
  {
  }

  /**
   * Relaying is an involution: a payload relayed to the opponent and
   * sent back unchanged arrives as the original payload.
   */
  lemma RelayTwice(d: Data)
    requires !d.AcceptRematch?
    ensures Rewrite(d).Forward? && Resend(Rewrite(d).msg).Some?
    ensures var e := Resend(Rewrite(d).msg).value;
      Rewrite(e).Forward? && Resend(Rewrite(e).msg) == Some(d)
  {
    match d
    case Move(x, y, dX, dY, p) =>
      if p.Some? {
        MirrorInvolutive(p.value.x);
        MirrorInvolutive(p.value.y);
      }
    case _ =>
  }
}
