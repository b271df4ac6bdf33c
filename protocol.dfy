/** Vocabulary of the Imaginarium game server: server phases, player roles,
    the player protocol states, the messages the server sends, and the record
    of one player's fields together with its output-queue operations. */
module Protocol {

  datatype Option<T> = None | Some(value: T)

  /** The global server phase held by GameState.state. */
  datatype Phase = PlayerConn | Game | Error | Shutdown

  /** A player's status: "MASTER" for the first player of a session, "PLAYER" otherwise. */
  datatype Role = MasterRole | PlayerRole

  /** The per-connection protocol states of a player. */
  datatype PState =
    | VerCheck | VerWait | StartWait | BeginSync | ReadyWait
    | TurnSync | WaitAssoc | WaitSelfCard | SelfSync | WaitVote
    | VoteSync | WaitNextTurn | SyncNextTurn

  /** States that no client message advances: only the round orchestrator does. */
  predicate IsBarrier(s: PState)
  {
    s == BeginSync || s == TurnSync || s == SelfSync || s == VoteSync || s == SyncNextTurn
  }

  /** Socket handles are opaque; they are only compared and used as dictionary keys. */
  type Socket = nat

  /** Server-to-client messages.  The wire text (space separated, comma and
      semicolon sub-delimited) is not modelled, only the fields it carries. */
  datatype Msg =
    | VersionMsg(number: int, role: Role, resName: string, resLink: string)
    | PlayerListMsg(entries: seq<(int, string)>)
    | BeginMsg(cardSet: string, hand: seq<int>, roster: seq<(int, string)>)
    | TurnMsg(storyteller: int)
    | AssocMsg(words: seq<string>)
    | PlayerMsg(submitter: int)
    | VoteMsg(ballot: seq<Option<int>>)
    | StatusMsg(trueCard: Option<int>, plays: seq<(int, Option<int>, Option<int>)>, scores: seq<(int, int)>)
    | CardsMsg(hand: seq<int>)
    | EndGameMsg

  /** Resource pack information: version name, download link and the number of
      cards of each card set (None when the configuration file could not be read). */
  datatype Resources = Resources(name: string, link: string, configuration: Option<map<string, nat>>)

  /** The shared GameState record. */
  datatype Session = Session(phase: Phase, cardSet: string)

  /** Every field of one Player object.  `connOk` is the connection's status
      flag, `connOpen` says the connection object has not been closed, and
      `sent` is what has been handed to the connection for sending. */
  datatype PlayerData = PlayerData(
    number: int,
    status: Role,
    socket: Socket,
    state: PState,
    valid: bool,
    name: string,
    score: int,
    getBroadcast: bool,
    cards: seq<int>,
    currentCard: Option<int>,
    selectedCard: Option<int>,
    buffer: seq<Msg>,
    hasBuffer: bool,
    hasTurn: bool,
    connOk: bool,
    connOpen: bool,
    sent: seq<Msg>)

  /** A freshly connected player, as the Player constructor leaves it. */
  function NewPlayer(socket: Socket, status: Role, number: int): (d: PlayerData)
    ensures d.state == VerCheck && d.valid && !d.getBroadcast && d.score == 0
    ensures d.buffer == [] && !d.hasBuffer && d.sent == [] && d.connOpen
  {
    PlayerData(number, status, socket, VerCheck, true, "Player", 0, false, [],
               None, None, [], false, false, true, true, [])
  }

  /** Everything this player has been asked to send, in order: what already went
      to the connection followed by what is still queued. */
  function Outbox(d: PlayerData): seq<Msg>
  {
    d.sent + d.buffer
  }

  /** The has_buffer flag is true exactly when messages are queued. */
  predicate FlagOk(d: PlayerData)
  {
    d.hasBuffer == (d.buffer != [])
  }

  /** Two records agree on every field except the output queue. */
  predicate SameButQueue(a: PlayerData, b: PlayerData)
  {
    a.(buffer := b.buffer, hasBuffer := b.hasBuffer, sent := b.sent) == b
  }

  /** send_message: queue one message. */
  function Send(d: PlayerData, m: Msg): (r: PlayerData)
    ensures Outbox(r) == Outbox(d) + [m]
    ensures r.sent == d.sent && FlagOk(r) && SameButQueue(d, r)
  {
    d.(buffer := d.buffer + [m], hasBuffer := true)
  }

  /** push_buffer: hand every queued message to the connection, oldest first. */
  function Pushed(d: PlayerData): (r: PlayerData)
    ensures Outbox(r) == Outbox(d) && r.buffer == []
    ensures FlagOk(r) && SameButQueue(d, r)
  {
    d.(sent := d.sent + d.buffer, buffer := [], hasBuffer := false)
  }

  /** The event loop's write step: send the oldest queued message only. */
  function Flushed(d: PlayerData): (r: PlayerData)
    requires d.buffer != []
    ensures Outbox(r) == Outbox(d) && |r.buffer| == |d.buffer| - 1
    ensures r.sent == d.sent + [d.buffer[0]]
    ensures FlagOk(r) && SameButQueue(d, r)
  {
    d.(sent := d.sent + [d.buffer[0]], buffer := d.buffer[1..], hasBuffer := |d.buffer| - 1 > 0)
  }

  /** stop: the player is invalidated and its connection closed. */
  function Stopped(d: PlayerData): PlayerData
  {
    d.(valid := false, connOpen := false)
  }

  /** verify: no error was recorded and the connection is healthy. */
  predicate Verify(d: PlayerData)
  {
    d.valid && d.connOk
  }

  /** Two messages queued one after the other on an empty queue leave in that
      order, whether the queue is pushed at once or flushed one message at a
      time. (For any interleaving, the order follows from the Outbox ensures
      of Send, Pushed and Flushed.) */
  lemma {:induction false} QueueIsFifo(d: PlayerData, m1: Msg, m2: Msg)
    requires d.buffer == []
    ensures Pushed(Send(Send(d, m1), m2)).sent == d.sent + [m1, m2]
    ensures Flushed(Send(Send(d, m1), m2)).sent == d.sent + [m1]
    ensures Flushed(Flushed(Send(Send(d, m1), m2))).sent == d.sent + [m1, m2]
  {
    var q := Send(Send(d, m1), m2);
    assert q.buffer == [m1, m2];
    assert Flushed(q).buffer == [m2];
  }

  /** str.isnumeric() on the ASCII digits a client can send: non-empty, all digits. */
  predicate IsNumeric(s: string)
  {
    |s| > 0 && forall i :: 0 <= i < |s| ==> '0' <= s[i] <= '9'
  }

  /** int() of a string of decimal digits. */
  function ParseNat(s: string): (n: nat)
    requires forall i :: 0 <= i < |s| ==> '0' <= s[i] <= '9'
    decreases |s|
  {
    if s == [] then 0 else 10 * ParseNat(s[..|s| - 1]) + (s[|s| - 1] - '0') as nat
  }

  /** Decimal digits of a natural number, the inverse of ParseNat. */
  function Digits(n: nat): (s: string)
    ensures IsNumeric(s)
  {
    if n < 10 then [('0' as int + n) as char] else Digits(n / 10) + [('0' as int + n % 10) as char]
  }

  lemma {:induction false} ParseDigits(n: nat)
    ensures ParseNat(Digits(n)) == n
  {
    var s := Digits(n);
    if n >= 10 {
      ParseDigits(n / 10);
      assert s[..|s| - 1] == Digits(n / 10);
    }
  }
}
