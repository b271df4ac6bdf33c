/** The server's objects: the shared GameState, one Player per connection, the
    PlayerList that owns them and the GameServer that drives the rounds.  Every
    method is specified against the functions of Protocol, Roster, Rules and
    Machine through the record snapshots `Player.Data()` and `PlayerList.Snap()`. */
module Server {
  import opened Protocol
  import opened Roster
  import opened Rules
  import opened Machine

  /** The first position of `p` in `ps`, by identity. */
  function Position(ps: seq<Player>, p: Player?): (r: Option<nat>)
    ensures r.Some? ==> r.value < |ps| && ps[r.value] == p
    ensures r.Some? ==> forall m :: 0 <= m < r.value ==> ps[m] != p
    ensures r.None? ==> p !in ps
  {
    if p !in ps then None
    else if ps[0] == p then Some(0)
    else
      var r := Position(ps[1..], p);
      Some(r.value + 1)
  }

  /** The index next_player starts its search from: the position of `p`, or 0
      when `p` is not listed. */
  function StartOf(ps: seq<Player>, p: Player?): nat
  {
    match Position(ps, p)
    case Some(i) => i
    case None => 0
  }

  /** The storyteller's place in the list: none chosen, at a position, or
      no longer listed. */
  function CurOf(ps: seq<Player>, p: Player?): Cur
  {
    if p == null then NoCurrent
    else match Position(ps, p)
      case Some(i) => At(i)
      case None => Gone
  }

  // ---------------------------------------------------------------------------
  // The list invariant, on the players' fixed attributes

  /** Recomputing the storyteller's place after the list changed: there is
      still no storyteller exactly when there was none, and a listed one is
      at an index of the new list. */
  lemma CurOfRecomputed(ps: seq<Player>, ps': seq<Player>, p: Player?)
    ensures CurOf(ps', p).NoCurrent? <==> CurOf(ps, p).NoCurrent?
    ensures CurOf(ps', p).At? ==> CurOf(ps', p).index < |ps'| && ps'[CurOf(ps', p).index] == p
  {
  }

  /** No player is listed twice. */
  ghost predicate NoRepeats(ps: seq<Player>)
  {
    forall i, j :: 0 <= i < j < |ps| ==> ps[i] != ps[j]
  }

  /** Join order: numbers strictly increase along the list. */
  ghost predicate Ascending(ps: seq<Player>)
  {
    forall i, j :: 0 <= i < j < |ps| ==> ps[i].number < ps[j].number
  }

  /** Every player was numbered below `bound`, belongs to list `l`, shares the
      GameState `g`, and is the MASTER exactly when it is number 0. */
  ghost predicate Members(ps: seq<Player>, l: PlayerList, g: GameState, bound: nat)
  {
    forall i :: 0 <= i < |ps| ==>
      && 0 <= ps[i].number < bound
      && ps[i].plist == l && ps[i].game == g
      && (ps[i].status == MasterRole <==> ps[i].number == 0)
  }

  /** The socket map holds exactly the listed players, each under its own socket. */
  ghost predicate SocketsMatch(ps: seq<Player>, m: map<Socket, Player>)
  {
    && (forall s :: s in m ==> m[s] in ps && m[s].socket == s)
    && (forall i :: 0 <= i < |ps| ==> ps[i].socket in m && m[ps[i].socket] == ps[i])
  }

  /** Taking out position i keeps every other element. */
  lemma StaysAfterSplice<T>(s: seq<T>, i: nat, p: T)
    requires i < |s| && p in s && p != s[i]
    ensures p in s[..i] + s[i + 1..]
  {
    var m :| 0 <= m < |s| && s[m] == p;
    if m < i {
      assert (s[..i] + s[i + 1..])[m] == p;
    } else {
      assert (s[..i] + s[i + 1..])[m - 1] == p;
    }
  }

  lemma PositionOfMember(ps: seq<Player>, j: nat)
    requires NoRepeats(ps) && j < |ps|
    ensures Position(ps, ps[j]) == Some(j)
  {
  }

  /** Appending a new player numbered `bound` keeps the list invariant. */
  lemma AppendKeeps(ps: seq<Player>, m: map<Socket, Player>, l: PlayerList, g: GameState, bound: nat, p: Player)
    requires NoRepeats(ps) && Ascending(ps) && Members(ps, l, g, bound) && SocketsMatch(ps, m)
    requires p !in ps && p.socket !in m && p.number == bound && p.plist == l && p.game == g
    requires p.status == MasterRole <==> bound == 0
    ensures var r := ps + [p];
      NoRepeats(r) && Ascending(r) && Members(r, l, g, bound + 1) && SocketsMatch(r, m[p.socket := p])
  {
  }

  /** Removing the player at position i keeps the order and membership parts
      of the list invariant. */
  lemma RemovalKeepsOrder(ps: seq<Player>, l: PlayerList, g: GameState, bound: nat, i: nat)
    requires i < |ps| && NoRepeats(ps) && Ascending(ps) && Members(ps, l, g, bound)
    ensures var r := ps[..i] + ps[i + 1..];
      NoRepeats(r) && Ascending(r) && Members(r, l, g, bound) && ps[i] !in r
  {
    var r := ps[..i] + ps[i + 1..];
    assert forall j :: 0 <= j < |r| ==> r[j] == ps[if j < i then j else j + 1];
  }

  /** Removing the player at position i, and its socket, keeps the socket map exact. */
  lemma RemovalKeepsSockets(ps: seq<Player>, m: map<Socket, Player>, i: nat)
    requires i < |ps| && NoRepeats(ps) && SocketsMatch(ps, m)
    ensures SocketsMatch(ps[..i] + ps[i + 1..], m - {ps[i].socket})
  {
    var r := ps[..i] + ps[i + 1..];
    var m' := m - {ps[i].socket};
    assert forall j :: 0 <= j < |r| ==> r[j] == ps[if j < i then j else j + 1];
    forall s | s in m'
      ensures m'[s] in r
    {
      var j :| 0 <= j < |ps| && ps[j] == m[s];
      if j < i {
        assert r[j] == ps[j];
      } else {
        assert r[j - 1] == ps[j];
      }
    }
  }

  /** In a valid list numbers are unique and the MASTER, if still listed, is
      the earliest joiner: nobody after it is a MASTER. */
  lemma SingleMaster(l: PlayerList, i: nat, j: nat)
    requires l.Valid() && i < j < |l.players|
    ensures l.players[i].number != l.players[j].number
    ensures l.players[j].status == PlayerRole
  {
    assert l.players[j].number > l.players[i].number >= 0;
  }

  /** Appending a player does not move the ones already listed. */
  lemma {:induction false} PositionAppend(ps: seq<Player>, p: Player, q: Player?)
    requires q != p
    ensures Position(ps + [p], q) == Position(ps, q)
    decreases |ps|
  {
    if ps != [] && ps[0] != q {
      PositionAppend(ps[1..], p, q);
      assert (ps + [p])[1..] == ps[1..] + [p];
    }
  }

  /** Cutting out position i ignores what was at position i. */
  lemma SpliceOut<T>(a: seq<T>, b: seq<T>, i: nat)
    requires |a| == |b| && i < |a| && forall m :: 0 <= m < |a| && m != i ==> a[m] == b[m]
    ensures a[..i] + a[i + 1..] == b[..i] + b[i + 1..]
  {
  }

  /** A splice at the end is the first sequence. */
  lemma SpliceEnd<T>(a: seq<T>, b: seq<T>)
    requires |a| == |b|
    ensures a[..|a|] + b[|b|..] == a
  {
  }

  /** Entry k of the list's snapshot is player k's record. */
  lemma SnapEntry(l: PlayerList, k: nat)
    requires k < |l.players|
    ensures l.Snap()[k] == l.players[k].Data()
  {
  }

  /** Dropping position i from the list drops it from the snapshot. */
  lemma SnapWithout(l: PlayerList, i: nat)
    requires i < |l.players|
    ensures var r := l.players[..i] + l.players[i + 1..]; var x := l.Snap()[..i] + l.Snap()[i + 1..];
      |r| == |x| && forall m :: 0 <= m < |r| ==> r[m].Data() == x[m]
  {
  }

  /** The list's snapshot is `x` when every listed player's record is. */
  lemma SnapIs(l: PlayerList, x: seq<PlayerData>)
    requires |x| == |l.players| && forall m :: 0 <= m < |l.players| ==> l.players[m].Data() == x[m]
    ensures l.Snap() == x
  {
  }

  /** When only player k of a list changed, the list's snapshot changed only at k. */
  lemma SnapAt(l: PlayerList, before: seq<PlayerData>, k: nat)
    requires NoRepeats(l.players) && k < |l.players| == |before|
    requires forall j :: 0 <= j < |l.players| && j != k ==> l.players[j].Data() == before[j]
    ensures l.Snap() == before[k := l.players[k].Data()]
  {
  }

  // ---------------------------------------------------------------------------

  /** The shared server state: the phase and the chosen card set. */
  class GameState {
    var phase: Phase
    var cardSet: string

    constructor (initial: Phase)
      ensures phase == initial && cardSet == "0"
    {
      phase := initial;
      cardSet := "0";
    }

    function Session(): Session
      reads this
    {
      Protocol.Session(phase, cardSet)
    }
  }

  /** One connected player. */
  class Player {
    const socket: Socket
    const status: Role
    const number: int
    const res: Resources
    const game: GameState
    const plist: PlayerList
    var state: PState
    var valid: bool
    var name: string
    var score: int
    var getBroadcast: bool
    var cards: seq<int>
    var currentCard: Option<int>
    var selectedCard: Option<int>
    var buffer: seq<Msg>
    var hasBuffer: bool
    var hasTurn: bool
    var connOk: bool
    var connOpen: bool
    var sent: seq<Msg>

    /** All the player's fields as a record. */
    function Data(): PlayerData
      reads this
    {
      PlayerData(number, status, socket, state, valid, name, score, getBroadcast, cards,
                 currentCard, selectedCard, buffer, hasBuffer, hasTurn, connOk, connOpen, sent)
    }

    /** This player is at position k of its own list, and nobody is listed twice. */
    ghost predicate ListedAt(k: nat)
      reads this, plist
    {
      NoRepeats(plist.players) && k < |plist.players| && plist.players[k] == this
    }

    constructor (sock: Socket, status: Role, res: Resources, game: GameState, plist: PlayerList, number: int)
      ensures Data() == NewPlayer(sock, status, number)
      ensures this.res == res && this.game == game && this.plist == plist
    {
      socket := sock;
      this.status := status;
      this.number := number;
      this.res := res;
      this.game := game;
      this.plist := plist;
      state := VerCheck;
      valid := true;
      name := "Player";
      score := 0;
      getBroadcast := false;
      cards := [];
      currentCard := None;
      selectedCard := None;
      buffer := [];
      hasBuffer := false;
      hasTurn := false;
      connOk := true;
      connOpen := true;
      sent := [];
    }

    /** Disconnect: invalidate the player and close its connection. */
    method Stop()
      modifies this
      ensures Data() == Stopped(old(Data()))
    {
      valid := false;
      if connOpen {
        connOpen := false;
      }
    }

    /** No error was recorded and the connection is healthy. */
    predicate Verify()
      reads this
    {
      valid && connOk
    }

    /** Queue one message for sending. */
    method SendMessage(m: Msg)
      modifies this
      ensures Data() == Send(old(Data()), m)
    {
      buffer := buffer + [m];
      hasBuffer := true;
    }

    /** Hand every queued message to the connection, oldest first. */
    method PushBuffer()
      modifies this
      ensures Data() == Pushed(old(Data()))
    {
      while |buffer| > 0
        invariant sent + buffer == old(sent + buffer)
        invariant Data() == old(Data()).(sent := sent, buffer := buffer, hasBuffer := hasBuffer)
        decreases |buffer|
      {
        sent := sent + [buffer[0]];
        buffer := buffer[1..];
      }
      hasBuffer := false;
    }

    /** The event loop's write step for a writable socket: send the oldest
        queued message and refresh has_buffer. */
    method FlushOne()
      requires buffer != []
      modifies this
      ensures Data() == Flushed(old(Data()))
    {
      sent := sent + [buffer[0]];
      buffer := buffer[1..];
      hasBuffer := |buffer| > 0;
    }

    /** The discard step of SYNC_NEXT_TURN for this player: the first card of
        its hand equal to the card it played is removed. */
    method DropPlayed()
      modifies this
      ensures Data() == old(Data()).(cards := RemoveFirst(old(cards), currentCard))
    {
      var j := 0;
      while j < |cards|
        invariant 0 <= j <= |cards|
        invariant forall m :: 0 <= m < j ==> Some(cards[m]) != currentCard
      {
        if Some(cards[j]) == currentCard {
          RemoveFirstAt(cards, currentCard, j);
          cards := cards[..j] + cards[j + 1..];
          return;
        }
        j := j + 1;
      }
    }

    /** The player's hand becomes `hand`. */
    method SetCards(hand: seq<int>)
      modifies this
      ensures Data() == old(Data()).(cards := hand)
    {
      cards := hand;
    }

    /** An error is recorded: the player is invalid from now on. */
    method Fail(ghost k: nat)
      requires ListedAt(k)
      modifies this
      ensures plist.Snap() == Invalidate(old(plist.Snap()), k)
    {
      ghost var s := plist.Snap();
      valid := false;
      SnapAt(plist, s, k);
    }

    /** Player k enters protocol state st; nothing else changes. */
    method Enter(st: PState, ghost k: nat)
      requires ListedAt(k)
      modifies this
      ensures plist.Snap() == old(plist.Snap())[k := old(Data()).(state := st)]
    {
      ghost var s := plist.Snap();
      state := st;
      SnapAt(plist, s, k);
    }

    /** `OK <name>` accepted in VER_WAIT. */
    method Join(newName: string, ghost k: nat)
      requires ListedAt(k)
      modifies plist.players
      ensures plist.Snap() == Joined(old(plist.Snap()), k, newName)
    {
      ghost var s := plist.Snap();
      name := newName;
      getBroadcast := true;
      SnapAt(plist, s, k);
      assert plist.Snap() == s[k := s[k].(name := newName, getBroadcast := true)];
      plist.Broadcast(ListTemplate, 0);
      Enter(StartWait, k);
    }

    /** A well-formed association accepted in WAIT_ASSOC. */
    method Associate(t: seq<string>, ghost k: nat)
      requires ListedAt(k) && ClueMsg(t)
      modifies plist.players
      ensures plist.Snap() == Associated(old(plist.Snap()), k, t)
    {
      ghost var s := plist.Snap();
      currentCard := Some(ParseNat(t[1]));
      selectedCard := Some(-1);
      SnapAt(plist, s, k);
      assert plist.Snap() == s[k := s[k].(currentCard := Some(ParseNat(t[1])), selectedCard := Some(-1))];
      plist.SetStates(WaitSelfCard);
      plist.Broadcast(Plain(AssocMsg(t[2..])), 0);
    }

    /** A card submission accepted in WAIT_SELF_CARD. */
    method Submit(card: nat, ghost k: nat)
      requires ListedAt(k)
      modifies plist.players
      ensures plist.Snap() == Submitted(old(plist.Snap()), k, card)
    {
      ghost var s := plist.Snap();
      currentCard := Some(card);
      SnapAt(plist, s, k);
      assert plist.Snap() == s[k := s[k].(currentCard := Some(card))];
      plist.Broadcast(SelfTemplate, number);
      Enter(SelfSync, k);
    }

    /** handle_message: act on one received line, split into tokens `t`,
        according to the player's state; `k` is this player's list position. */
    method HandleMessage(t: seq<string>, ghost k: nat)
      requires ListedAt(k)
      modifies plist.players, game
      ensures var r := OnMessage(old(plist.Snap()), k, t, old(game.Session()));
        plist.Snap() == r.ps && game.Session() == r.session
    {
      if state == VerWait || state == StartWait || state == ReadyWait {
        HandleSetup(t, k);
      } else if InTurn(state) {
        HandleTurn(t, k);
      } else {
        Fail(k);
      }
    }

    /** handle_message before the first turn: the version answer, the start
        command and READY. */
    method HandleSetup(t: seq<string>, ghost k: nat)
      requires ListedAt(k) && (state == VerWait || state == StartWait || state == ReadyWait)
      modifies plist.players, game
      ensures var r := OnMessage(old(plist.Snap()), k, t, old(game.Session()));
        plist.Snap() == r.ps && game.Session() == r.session
    {
      if state == VerWait {
        if |t| != 2 || t[0] != "OK" {
          Fail(k);
          return;
        }
        Join(t[1], k);
      } else if state == StartWait {
        if status != MasterRole {
          Fail(k);
          return;
        }
        if |t| != 2 || t[0] != "START_GAME" {
          Fail(k);
          return;
        }
        game.phase := Game;
        game.cardSet := t[1];
        Enter(BeginSync, k);
      } else {
        if |t| != 1 || t[0] != "READY" {
          Fail(k);
          return;
        }
        Enter(TurnSync, k);
      }
    }

    /** handle_message during a turn: the association, the played card, the
        vote and NEXT_TURN. */
    method HandleTurn(t: seq<string>, ghost k: nat)
      requires ListedAt(k) && InTurn(state)
      modifies plist.players
      ensures plist.Snap() == OnMessage(old(plist.Snap()), k, t, game.Session()).ps
    {
      if state == WaitAssoc {
        if !hasTurn {
          Fail(k);
          return;
        }
        if |t| < 3 || t[0] != "TURN" || !IsNumeric(t[1]) {
          Fail(k);
          plist.SetStates(TurnSync);
          return;
        }
        Associate(t, k);
      } else if state == WaitSelfCard {
        if !hasTurn {
          if |t| < 2 || t[0] != "CARD" || !IsNumeric(t[1]) {
            Fail(k);
            return;
          }
          Submit(ParseNat(t[1]), k);
        } else {
          Fail(k);
        }
      } else if state == WaitVote {
        if !hasTurn {
          if |t| < 2 || t[0] != "CARD" || !IsNumeric(t[1]) {
            Fail(k);
            return;
          }
          selectedCard := Some(ParseNat(t[1]));
          Enter(VoteSync, k);
        } else {
          Fail(k);
        }
      } else {
        if |t| != 1 || t[0] != "NEXT_TURN" {
          Fail(k);
          return;
        }
        Enter(SyncNextTurn, k);
      }
    }

    /** The checks of handle_state on the player's own fields. */
    method Greet()
      modifies this
      ensures Data() == Greeted(old(Data()), game.Session(), res)
    {
      if state == VerCheck {
        SendMessage(VersionMsg(number, status, res.name, res.link));
        state := VerWait;
      }
      if state == StartWait && game.phase == Game {
        state := BeginSync;
      }
      if state == VerWait && game.phase == Game {
        valid := false;
      }
    }

    /** handle_state: the checks that need no input, one after the other. */
    method HandleState(ghost k: nat)
      requires ListedAt(k)
      modifies plist.players
      ensures plist.Snap() == OnState(old(plist.Snap()), k, game.Session(), res)
    {
      ghost var s := plist.Snap();
      Greet();
      SnapAt(plist, s, k);
      SkipOwnTurn(k);
    }

    /** The last checks of handle_state: the storyteller skips its own card
        submission, announcing it, and its own vote. */
    method SkipOwnTurn(ghost k: nat)
      requires ListedAt(k)
      modifies plist.players
      ensures plist.Snap() == StorytellerSkips(old(plist.Snap()), k)
    {
      if state == WaitSelfCard && hasTurn {
        Enter(SelfSync, k);
        plist.Broadcast(SelfTemplate, number);
      }
      if state == WaitVote && hasTurn {
        Enter(VoteSync, k);
      }
    }
  }

  /** The container of Player objects. */
  class PlayerList {
    var players: seq<Player>
    var sockets: map<Socket, Player>
    const gameSt: GameState
    var haveMaster: bool
    var seqNumber: nat

    /** The snapshot of every listed player, in list order. */
    function Snap(): (s: seq<PlayerData>)
      reads this, players
      ensures |s| == |players|
    {
      seq(|players|, i requires 0 <= i < |players| reads this, players => players[i].Data())
    }

    /** The list invariant: no player is listed twice, numbers increase in join
        order and stay below the counter, every player belongs to this list and
        shares its GameState, the MASTER is the player numbered 0, a master has
        been admitted once a number was handed out, and the socket map is
        exactly the listed players' sockets. */
    ghost predicate Valid()
      reads this
    {
      && NoRepeats(players) && Ascending(players)
      && Members(players, this, gameSt, seqNumber)
      && haveMaster == (seqNumber > 0)
      && SocketsMatch(players, sockets)
    }

    constructor (g: GameState)
      ensures Valid() && gameSt == g && players == [] && sockets == map[]
      ensures !haveMaster && seqNumber == 0
    {
      players := [];
      sockets := map[];
      gameSt := g;
      haveMaster := false;
      seqNumber := 0;
    }

    /** len(): the number of valid players. */
    method Len() returns (n: nat)
      ensures n == CountValid(Snap())
    {
      ghost var s := Snap();
      n := 0;
      var i := 0;
      while i < |players|
        invariant 0 <= i <= |players|
        invariant n == CountValid(s[..i])
      {
        CountValidStep(s, i);
        if players[i].valid {
          n := n + 1;
        }
        i := i + 1;
      }
      CountValidWhole(s);
    }

    /** Admit a new connection: the first player ever is the MASTER, the rest
        are PLAYERs, and each gets the next sequence number. */
    method AddPlayer(res: Resources, sock: Socket) returns (p: Player)
      requires Valid() && sock !in sockets
      modifies this
      ensures Valid() && fresh(p)
      ensures p.Data() == NewPlayer(sock, if old(haveMaster) then PlayerRole else MasterRole, old(seqNumber))
      ensures p.res == res
      ensures players == old(players) + [p] && Snap() == old(Snap()) + [p.Data()]
      ensures sockets == old(sockets)[sock := p]
      ensures haveMaster && seqNumber == old(seqNumber) + 1
    {
      p := new Player(sock, if haveMaster then PlayerRole else MasterRole, res, gameSt, this, seqNumber);
      AppendKeeps(players, sockets, this, gameSt, seqNumber, p);
      players := players + [p];
      sockets := sockets[sock := p];
      haveMaster := true;
      seqNumber := seqNumber + 1;
    }

    /** Queue `m` for every valid player that receives broadcasts. */
    method SendAll(m: Msg)
      requires NoRepeats(players)
      modifies players
      ensures Snap() == BroadcastTo(old(Snap()), m)
    {
      ghost var s := Snap();
      var i := 0;
      while i < |players|
        invariant 0 <= i <= |players|
        invariant forall j :: 0 <= j < |players| ==> players[j].Data() == (if j < i then BroadcastTo(s, m)[j] else s[j])
      {
        if players[i].valid && players[i].getBroadcast {
          players[i].SendMessage(m);
        }
        i := i + 1;
      }
    }

    /** broadcast: expand a template ("#PLAYER_LIST", "#SELF") and queue the
        message for every valid player that receives broadcasts. */
    method Broadcast(data: Outgoing, info: int)
      requires NoRepeats(players)
      modifies players
      ensures data.Plain? ==> Snap() == BroadcastTo(old(Snap()), data.msg)
      ensures !data.Plain? ==> Snap() == BroadcastTo(old(Snap()), Expand(old(Snap()), data, info))
    {
      SendAll(Expand(Snap(), data, info));
    }

    /** The player at position i is given the hand `hand`. */
    method GiveCards(i: nat, hand: seq<int>)
      requires NoRepeats(players) && i < |players|
      modifies players[i]
      ensures Snap() == old(Snap())[i := old(Snap())[i].(cards := hand)]
    {
      ghost var before := Snap();
      players[i].SetCards(hand);
      SnapAt(this, before, i);
    }

    /** One step of the dealing loop: player i, if valid, takes the next 6
        cards of `from`, or what is left. */
    method DealOne(i: nat, from: seq<int>) returns (left: seq<int>)
      requires NoRepeats(players) && i < |players|
      modifies players[i]
      ensures Snap() == if old(Snap())[i].valid
        then old(Snap())[i := old(Snap())[i].(cards := from[..Min(6, |from|)])] else old(Snap())
      ensures left == if old(Snap())[i].valid then from[Min(6, |from|)..] else from
    {
      SnapEntry(this, i);
      left := from;
      if players[i].valid {
        GiveCards(i, from[..Min(6, |from|)]);
        left := from[Min(6, |from|)..];
      }
    }

    /** One step of the drawing loop: player i, if valid, takes the card at
        the front of `from`. */
    method DrawOne(i: nat, from: seq<int>) returns (left: seq<int>)
      requires NoRepeats(players) && i < |players| && (Snap()[i].valid ==> |from| > 0)
      modifies players[i]
      ensures Snap() == if old(Snap())[i].valid
        then old(Snap())[i := old(Snap())[i].(cards := old(Snap())[i].cards + [from[0]])] else old(Snap())
      ensures left == if old(Snap())[i].valid then from[1..] else from
    {
      SnapEntry(this, i);
      left := from;
      if players[i].valid {
        GiveCards(i, players[i].cards + [from[0]]);
        left := from[1..];
      }
    }

    /** Every valid player in turn takes the next 6 cards of `deck`, or what
        is left; the rest of the deck is returned. */
    method DealFrom(deck: seq<int>) returns (rest: seq<int>)
      requires NoRepeats(players)
      modifies players
      ensures Snap() == DealHands(old(Snap()), deck)
      ensures rest == DealRest(old(Snap()), deck)
    {
      ghost var s := Snap();
      rest := deck;
      var i := 0;
      while i < |players|
        invariant i <= |players| && rest == deck[Min(6 * CountValid(s[..i]), |deck|)..]
        invariant Snap() == DealHands(s, deck)[..i] + s[i..]
      {
        DealAdvance(s, deck, i, rest, Snap());
        rest := DealOne(i, rest);
        i := i + 1;
      }
      CountValidWhole(s);
      SpliceEnd(DealHands(s, deck), s);
    }

    /** Every valid player in turn takes the card at the front of `deck`;
        the rest of the deck is returned. */
    method DrawFrom(deck: seq<int>) returns (rest: seq<int>)
      requires NoRepeats(players) && |deck| >= CountValid(Snap())
      modifies players
      ensures Snap() == Draw(old(Snap()), deck)
      ensures rest == deck[CountValid(old(Snap()))..]
    {
      ghost var s := Snap();
      rest := deck;
      var i := 0;
      while i < |players|
        invariant i <= |players| && CountValid(s[..i]) <= |deck| && rest == deck[CountValid(s[..i])..]
        invariant Snap() == Draw(s, deck)[..i] + s[i..]
      {
        DrawAdvance(s, deck, i, rest, Snap());
        rest := DrawOne(i, rest);
        i := i + 1;
      }
      CountValidWhole(s);
      SpliceEnd(Draw(s, deck), s);
    }

    /** Move every valid player to state `st`. */
    method SetStates(st: PState)
      requires NoRepeats(players)
      modifies players
      ensures Snap() == Roster.SetStates(old(Snap()), st)
    {
      ghost var s := Snap();
      var i := 0;
      while i < |players|
        invariant 0 <= i <= |players|
        invariant forall j :: 0 <= j < |players| ==> players[j].Data() == (if j < i then Roster.SetStates(s, st)[j] else s[j])
      {
        if players[i].valid {
          players[i].state := st;
        }
        i := i + 1;
      }
    }

    /** next_player: the first valid player after `p` in circular list order,
        starting from the front when `p` is not listed; null when nobody is valid. */
    method NextPlayer(p: Player?) returns (r: Player?)
      ensures var next := Successor(Snap(), StartOf(players, p));
        && (next.None? ==> r == null)
        && (next.Some? ==> r == players[next.value])
    {
      var pIdx: nat := 0;
      var i := 0;
      while i < |players|
        invariant 0 <= i <= |players|
        invariant forall m :: 0 <= m < i ==> players[m] != p
      {
        if players[i] == p {
          pIdx := i;
          break;
        }
        i := i + 1;
      }
      r := ProbeAfter(pIdx);
    }

    /** The search loop of next_player: up to 2n steps forward from index
        `from`, wrapping at the end of the list, stopping at a valid player. */
    method ProbeAfter(from: nat) returns (r: Player?)
      requires |players| > 0 ==> from < |players|
      ensures var next := Successor(Snap(), from);
        && (next.None? ==> r == null)
        && (next.Some? ==> r == players[next.value])
    {
      var n := |players|;
      ghost var s := Snap();
      if n > 0 {
        ProbeFromSpec(s, from, 1);
        forall m | 0 <= m < n && ProbeFrom(s, from, 1).None?
          ensures !players[m].valid
        {
          assert s[m] == players[m].Data();
          assert 1 <= Distance(from, m, n);
        }
      }
      var pIdx: nat := from;
      var iteration := 0;
      while iteration < n * 2
        invariant 0 <= iteration <= 2 * n
        invariant n > 0 ==> pIdx < n
        invariant iteration == 0 ==> pIdx == from
        invariant n > 0 && 1 <= iteration <= n ==> pIdx == ProbeAt(from, iteration, n)
        invariant n > 0 && iteration <= n ==> ProbeFrom(s, from, 1) == ProbeFrom(s, from, iteration + 1)
        invariant n > 0 && iteration >= n ==> forall m :: 0 <= m < n ==> !players[m].valid
      {
        pIdx := pIdx + 1;
        iteration := iteration + 1;
        if pIdx >= n {
          pIdx := 0;
        }
        assert s[pIdx] == players[pIdx].Data();
        if players[pIdx].valid {
          if iteration > n {
            assert false;
          }
          return players[pIdx];
        }
      }
      return null;
    }

    /** Drop the player at position i from the list and from the socket map. */
    method RemoveAt(i: nat)
      requires Valid() && i < |players|
      modifies this
      ensures Valid()
      ensures players == old(players)[..i] + old(players)[i + 1..] && old(players)[i] !in players
      ensures sockets == old(sockets) - {old(players)[i].socket}
      ensures Snap() == old(Snap())[..i] + old(Snap())[i + 1..]
      ensures haveMaster == old(haveMaster) && seqNumber == old(seqNumber)
    {
      ghost var s := Snap();
      RemovalKeepsOrder(players, this, gameSt, seqNumber, i);
      RemovalKeepsSockets(players, sockets, i);
      SnapWithout(this, i);
      sockets := sockets - {players[i].socket};
      players := players[..i] + players[i + 1..];
      SnapIs(this, s[..i] + s[i + 1..]);
    }

    /** The search of check: the first player whose verify() fails. */
    method FindDead() returns (r: Option<nat>)
      ensures r == FirstDead(Snap())
    {
      ghost var s := Snap();
      var i := 0;
      while i < |players|
        invariant 0 <= i <= |players|
        invariant FirstDead(s) == FirstDeadFrom(s, i)
      {
        assert s[i] == players[i].Data();
        if !players[i].Verify() {
          return Some(i);
        }
        i := i + 1;
      }
      return None;
    }

    /** The first half of check's removal: flush and stop player i, put the
        server in ERROR if it was the master during the connection phase, and
        drop it from the socket map and the list. */
    method Unlist(i: nat)
      requires Valid() && i < |players|
      modifies this, players[i], gameSt
      ensures Valid() && gameSt.cardSet == old(gameSt.cardSet)
      ensures players == old(players)[..i] + old(players)[i + 1..] && old(players)[i] !in players
      ensures Snap() == old(Snap())[..i] + old(Snap())[i + 1..]
      ensures old(players)[i].Data() == Stopped(Pushed(old(players[i].Data())))
      ensures gameSt.phase ==
        if old(players[i].status) == MasterRole && old(gameSt.phase) == PlayerConn then Error else old(gameSt.phase)
    {
      ghost var s := Snap();
      Retire(i);
      SnapEntry(this, i);
      SpliceOut(Snap(), s, i);
      RemoveAt(i);
    }

    /** Player i is flushed and stopped; if it was the master during the
        connection phase, the server goes to ERROR. */
    method Retire(i: nat)
      requires NoRepeats(players) && i < |players|
      modifies players[i], gameSt
      ensures Snap() == old(Snap())[i := Stopped(Pushed(old(Snap())[i]))]
      ensures gameSt.cardSet == old(gameSt.cardSet)
      ensures gameSt.phase ==
        if players[i].status == MasterRole && old(gameSt.phase) == PlayerConn then Error else old(gameSt.phase)
    {
      ghost var s := Snap();
      var player := players[i];
      player.PushBuffer();
      player.Stop();
      SnapAt(this, s, i);
      if player.status == MasterRole && gameSt.phase == PlayerConn {
        gameSt.phase := Error;
      }
    }

    /** The removal of check for the first player i that fails verify(). */
    method Evict(i: nat)
      requires Valid() && FirstDead(Snap()) == Some(i)
      modifies this, players, gameSt
      ensures Valid() && gameSt.cardSet == old(gameSt.cardSet)
      ensures var sw := Sweep(old(Snap()), old(gameSt.phase));
        Snap() == sw.ps && gameSt.phase == sw.phase && sw.removed == Some(old(players)[i].Data())
      ensures players == old(players)[..i] + old(players)[i + 1..] && !old(players)[i].valid
    {
      ghost var s := Snap();
      ghost var gone := players[i];
      Unlist(i);
      ghost var rest := Snap();
      assert rest == s[..i] + s[i + 1..];
      label Unlisted:
      if gameSt.phase == PlayerConn {
        Broadcast(ListTemplate, 0);
      }
      assert unchanged@Unlisted(this);
      assert gone.Data() == Stopped(Pushed(s[i]));
    }

    /** check: the first player that fails verify() has its queue flushed, is
        stopped and leaves the list; see Roster.Sweep. */
    method Check()
      requires Valid()
      modifies this, players, gameSt
      ensures Valid() && gameSt.cardSet == old(gameSt.cardSet)
      ensures var sw := Sweep(old(Snap()), old(gameSt.phase));
        Snap() == sw.ps && gameSt.phase == sw.phase
      ensures match FirstDead(old(Snap()))
        case None => players == old(players)
        case Some(i) =>
          players == old(players)[..i] + old(players)[i + 1..] &&
          Sweep(old(Snap()), old(gameSt.phase)).removed == Some(old(players)[i].Data())
      ensures forall p :: p in old(players) && p !in players ==> !p.valid
    {
      var dead := FindDead();
      if dead.Some? {
        ghost var before := players;
        Evict(dead.value);
        forall p | p in before && p != before[dead.value]
          ensures p in players
        {
          StaysAfterSplice(before, dead.value, p);
        }
      }
    }

    /** stop: flush and disconnect every player, then empty the list. */
    method Stop()
      requires NoRepeats(players)
      modifies this, players
      ensures players == [] && sockets == map[]
      ensures forall i :: 0 <= i < |old(players)| ==> old(players)[i].Data() == Stopped(Pushed(old(Snap())[i]))
    {
      ghost var s := Snap();
      var i := 0;
      while i < |players|
        invariant 0 <= i <= |players| && players == old(players)
        invariant forall j :: 0 <= j < |players| ==> players[j].Data() == (if j < i then Stopped(Pushed(s[j])) else s[j])
      {
        players[i].PushBuffer();
        players[i].Stop();
        i := i + 1;
      }
      players := [];
      sockets := map[];
    }
  }

  /** The game server: the shared state, the player list, the deck of the
      running game and the current storyteller. */
  class GameServer {
    const gameState: GameState
    const players: PlayerList
    const resources: Resources
    var cards: seq<int>
    var currentPlayer: Player?

    /** The server invariant: the list is valid and shares the server's
        GameState, its players use the server's resources, and a storyteller
        that left the list is no longer valid. */
    ghost predicate Valid()
      reads this, players, currentPlayer
    {
      && players.Valid() && players.gameSt == gameState
      && (forall i :: 0 <= i < |players.players| ==> players.players[i].res == resources)
      && LostIsInvalid()
    }

    /** A storyteller that left the list is no longer valid. */
    ghost predicate LostIsInvalid()
      reads this, players, currentPlayer
    {
      currentPlayer != null && currentPlayer !in players.players ==> !currentPlayer.valid
    }

    /** Where current_player stands relative to the list. */
    ghost function Cur(): Cur
      reads this, players
    {
      CurOf(players.players, currentPlayer)
    }

    /** The server's state as the orchestrator's Table. */
    ghost function View(): Table
      reads this, players, players.players, gameState
    {
      Table(players.Snap(), cards, Cur(), gameState.Session())
    }

    /** prepare(): a new session in the connection phase, with no players,
        no deck and no storyteller. */
    constructor (res: Resources)
      ensures Valid() && resources == res
      ensures View() == Table([], [], NoCurrent, Session(PlayerConn, "0"))
    {
      var g := new GameState(PlayerConn);
      gameState := g;
      players := new PlayerList(g);
      resources := res;
      cards := [];
      currentPlayer := null;
    }

    /** get_sync_state: the state all valid players share, if any. */
    method GetSyncState() returns (st: Option<PState>)
      ensures st == SyncState(players.Snap())
    {
      ghost var s := players.Snap();
      ghost var first: nat := 0;
      var ps := players.players;
      st := None;
      var i := 0;
      while i < |ps|
        invariant 0 <= i <= |ps| && first <= i
        invariant st.None? <==> forall m :: 0 <= m < i ==> !s[m].valid
        invariant st.Some? ==> first < i && s[first].valid && s[first].state == st.value
        invariant st.Some? ==> forall m :: 0 <= m < i && s[m].valid ==> s[m].state == st.value
      {
        assert s[i] == ps[i].Data();
        if ps[i].valid {
          if st == None {
            st := Some(ps[i].state);
            first := i;
          } else if ps[i].state != st.value {
            if SyncState(s).Some? {
              SyncStateSpec(s, SyncState(s).value);
            }
            return None;
          }
        }
        i := i + 1;
      }
      CountValidZero(s);
      if st.Some? {
        SyncStateSpec(s, st.value);
      } else if SyncState(s).Some? {
        SyncStateSpec(s, SyncState(s).value);
      }
    }

    /** accept_connection: a new connection is admitted while players are
        still connecting and fewer than 7 are valid; otherwise it is closed. */
    method AcceptConnection(sock: Socket) returns (admitted: bool)
      requires Valid() && sock !in players.sockets
      modifies players
      ensures Valid()
      ensures admitted <==> old(gameState.phase) == PlayerConn && CountValid(old(players.Snap())) < 7
      ensures admitted ==> View() == old(View()).(ps := old(View()).ps +
        [NewPlayer(sock, if old(players.haveMaster) then PlayerRole else MasterRole, old(players.seqNumber))])
      ensures !admitted ==> unchanged(players)
    {
      if gameState.phase == PlayerConn {
        var n := players.Len();
        if n < 7 {
          var p := players.AddPlayer(resources, sock);
          PositionAppend(old(players.players), p, currentPlayer);
          return true;
        }
      }
      return false;
    }

    /** begin_game: size the shuffled deck `deck` for the number of valid
        players and deal each of them 6 cards. */
    method BeginGame(deck: seq<int>)
      requires NoRepeats(players.players)
      requires IsShuffle(deck, CardCount(resources, gameState.cardSet))
      modifies this, players.players
      ensures currentPlayer == old(currentPlayer)
      ensures var d := Truncate(deck, CountValid(old(players.Snap())));
        players.Snap() == DealHands(old(players.Snap()), d) && cards == DealRest(old(players.Snap()), d)
    {
      ghost var s := players.Snap();
      cards := deck;
      var n := players.Len();
      if n == 4 {
        cards := cards[..SliceLen(|cards|, |cards| - 2)];
      } else if n == 5 {
        cards := cards[..SliceLen(|cards|, |cards| - 23)];
      } else if n == 6 {
        cards := cards[..SliceLen(|cards|, |cards| - 26)];
      }
      assert players.Snap() == s;
      assert n == CountValid(s);
      ghost var d := cards;
      assert d == Truncate(deck, CountValid(s));
      Deal();
      assert players.Snap() == DealHands(s, d) && cards == DealRest(s, d);
    }

    /** The dealing loop of begin_game: each valid player in turn takes the
        next 6 cards, or what is left. */
    method Deal()
      requires NoRepeats(players.players)
      modifies this, players.players
      ensures currentPlayer == old(currentPlayer)
      ensures players.Snap() == DealHands(old(players.Snap()), old(cards))
      ensures cards == DealRest(old(players.Snap()), old(cards))
    {
      cards := players.DealFrom(cards);
    }

    /** The vote count of calculate_result: for each valid player, how many
        valid players other than the storyteller (at position st) selected
        its card. */
    method Tally(ghost st: nat) returns (result: seq<int>, told: int)
      requires NoRepeats(players.players) && st < |players.players| && players.players[st] == currentPlayer
      ensures |result| == |players.players| && told == result[st]
      ensures forall i :: 0 <= i < |result| ==>
        result[i] == if players.players[i].valid then Fooled(players.Snap(), i, st) else 0
    {
      var ps := players.players;
      ghost var s := players.Snap();
      result := seq(|ps|, _ => 0);
      told := 0;
      var i := 0;
      while i < |ps|
        invariant 0 <= i <= |ps| && |result| == |ps|
        invariant told == if st < i then result[st] else 0
        invariant forall m :: 0 <= m < |ps| ==> result[m] == if m < i && s[m].valid then Fooled(s, m, st) else 0
      {
        if ps[i].valid {
          var j := 0;
          while j < |ps|
            invariant 0 <= j <= |ps| && |result| == |ps|
            invariant result[i] == VotesBelow(s, s[i].currentCard, st, j)
            invariant forall m :: 0 <= m < |ps| && m != i ==>
              result[m] == if m < i && s[m].valid then Fooled(s, m, st) else 0
          {
            assert s[j] == ps[j].Data() && s[i] == ps[i].Data();
            if ps[j].valid && ps[j] != currentPlayer && ps[i].currentCard == ps[j].selectedCard {
              result := result[i := result[i] + 1];
            }
            j := j + 1;
          }
          if ps[i] == currentPlayer {
            told := result[i];
          }
        }
        i := i + 1;
      }
    }

    /** Every valid player other than the storyteller gains 3 points. */
    method RewardOthers(ghost st: nat)
      requires NoRepeats(players.players) && st < |players.players| && players.players[st] == currentPlayer
      modifies players.players
      ensures players.Snap() == Raised(old(players.Snap()), ForOthers(|players.players|, st))
    {
      var ps := players.players;
      ghost var s := players.Snap();
      ghost var b := ForOthers(|ps|, st);
      var i := 0;
      while i < |ps|
        invariant 0 <= i <= |ps|
        invariant forall j :: 0 <= j < |ps| ==> ps[j].Data() == (if j < i then Raised(s, b)[j] else s[j])
      {
        if ps[i].valid && ps[i] != currentPlayer {
          ps[i].score := ps[i].score + 3;
        }
        i := i + 1;
      }
    }

    /** Every valid player other than the storyteller that selected `card`
        gains 3 points. */
    method RewardGuessers(ghost st: nat, card: Option<int>)
      requires NoRepeats(players.players) && st < |players.players| && players.players[st] == currentPlayer
      modifies players.players
      ensures players.Snap() == Raised(old(players.Snap()), ForGuessers(old(players.Snap()), st, card))
    {
      var ps := players.players;
      ghost var s := players.Snap();
      ghost var b := ForGuessers(s, st, card);
      var i := 0;
      while i < |ps|
        invariant 0 <= i <= |ps|
        invariant forall j :: 0 <= j < |ps| ==> ps[j].Data() == (if j < i then Raised(s, b)[j] else s[j])
      {
        if ps[i].valid && ps[i] != currentPlayer && ps[i].selectedCard == card {
          ps[i].score := ps[i].score + 3;
        }
        i := i + 1;
      }
    }

    /** Somebody found the storyteller's card `card`: the players that voted
        for it and the storyteller gain 3 points each. */
    method RewardTeller(ghost st: nat, card: Option<int>)
      requires NoRepeats(players.players) && st < |players.players| && players.players[st] == currentPlayer
      requires card == currentPlayer.currentCard
      modifies players.players
      ensures players.Snap() == Rewarded(old(players.Snap()), st)
    {
      RewardGuessers(st, card);
      ghost var mid := players.Snap();
      currentPlayer.score := currentPlayer.score + 3;
      SnapAt(players, mid, st);
    }

    /** Every valid player i gains result[i] points. */
    method AddResults(result: seq<int>)
      requires NoRepeats(players.players) && |result| == |players.players|
      modifies players.players
      ensures players.Snap() == Raised(old(players.Snap()), result)
    {
      var ps := players.players;
      ghost var s := players.Snap();
      var i := 0;
      while i < |ps|
        invariant 0 <= i <= |ps|
        invariant forall j :: 0 <= j < |ps| ==> ps[j].Data() == (if j < i then Raised(s, result)[j] else s[j])
      {
        if ps[i].valid {
          ps[i].score := ps[i].score + result[i];
        }
        i := i + 1;
      }
    }

    /** calculate_result: every valid player's score grows by what it earned
        in a round told by the storyteller at position st. */
    method CalculateResult(ghost st: nat)
      requires NoRepeats(players.players) && st < |players.players|
      requires players.players[st] == currentPlayer && currentPlayer.valid
      modifies players.players
      ensures players.Snap() == Scored(old(players.Snap()), st)
    {
      ghost var s := players.Snap();
      var currentCard := currentPlayer.currentCard;
      var result, told := Tally(st);
      ScoredInSteps(s, st, result);
      var n := players.Len();
      if told == n as int - 1 {
        RewardOthers(st);
      } else {
        if told != 0 {
          RewardTeller(st, currentCard);
        }
        AddResults(result);
      }
    }

    /** The BEGIN messages: every valid player waits for READY and is sent
        the card set, its hand and the player list `digest`. */
    method SendBegin(digest: seq<(int, string)>)
      requires NoRepeats(players.players)
      modifies players.players
      ensures players.Snap() == Begin(old(players.Snap()), gameState.cardSet, digest)
    {
      var ps := players.players;
      ghost var s := players.Snap();
      var i := 0;
      while i < |ps|
        invariant 0 <= i <= |ps|
        invariant forall j :: 0 <= j < |ps| ==>
          ps[j].Data() == (if j < i then Begin(s, gameState.cardSet, digest)[j] else s[j])
      {
        if ps[i].valid {
          ps[i].state := ReadyWait;
          ps[i].SendMessage(BeginMsg(gameState.cardSet, ps[i].cards, digest));
        }
        i := i + 1;
      }
    }

    /** Give the turn to the player at position j: only it has the turn, and
        every valid player waits for the association. */
    method GiveTurns(ghost j: nat)
      requires NoRepeats(players.players) && j < |players.players| && players.players[j] == currentPlayer
      modifies players.players
      ensures players.Snap() == GiveTurn(old(players.Snap()), j)
    {
      var ps := players.players;
      ghost var s := players.Snap();
      var i := 0;
      while i < |ps|
        invariant 0 <= i <= |ps|
        invariant forall m :: 0 <= m < |ps| ==> ps[m].Data() == (if m < i then GiveTurn(s, j)[m] else s[m])
      {
        if ps[i].valid {
          ps[i].hasTurn := ps[i] == currentPlayer;
          ps[i].state := WaitAssoc;
        }
        i := i + 1;
      }
    }

    /** The discard step of SYNC_NEXT_TURN: every valid player drops the card it played. */
    method DiscardPlayed()
      requires NoRepeats(players.players)
      modifies players.players
      ensures players.Snap() == Discard(old(players.Snap()))
    {
      var ps := players.players;
      ghost var s := players.Snap();
      var i := 0;
      while i < |ps|
        invariant 0 <= i <= |ps|
        invariant forall m :: 0 <= m < |ps| ==> ps[m].Data() == (if m < i then Discard(s)[m] else s[m])
      {
        if ps[i].valid {
          ps[i].DropPlayed();
        }
        i := i + 1;
      }
    }

    /** The draw step of SYNC_NEXT_TURN: every valid player in turn takes the
        card at the front of the deck. */
    method DrawCards()
      requires NoRepeats(players.players) && |cards| >= CountValid(players.Snap())
      modifies this, players.players
      ensures currentPlayer == old(currentPlayer)
      ensures players.Snap() == Draw(old(players.Snap()), old(cards))
      ensures cards == old(cards)[CountValid(old(players.Snap()))..]
    {
      cards := players.DrawFrom(cards);
    }

    /** `tuple(players)[0]`: the position of the first valid player. */
    method FirstValid() returns (i: nat)
      requires CountValid(players.Snap()) > 0
      ensures i == ValidIndices(players.Snap())[0]
      ensures i < |players.players| && players.players[i].valid
    {
      ghost var s := players.Snap();
      CountValidZero(s);
      i := 0;
      while i < |players.players| && !players.players[i].valid
        invariant 0 <= i <= |players.players|
        invariant forall m :: 0 <= m < i ==> !s[m].valid
      {
        i := i + 1;
      }
      FirstValidIndex(s, i);
    }

    /** Every valid player is sent its hand and waits for the next turn. */
    method DealOut()
      requires NoRepeats(players.players)
      modifies players.players
      ensures players.Snap() == DealtOut(old(players.Snap()))
    {
      var ps := players.players;
      ghost var s := players.Snap();
      var i := 0;
      while i < |ps|
        invariant 0 <= i <= |ps|
        invariant forall m :: 0 <= m < |ps| ==> ps[m].Data() == (if m < i then DealtOut(s)[m] else s[m])
      {
        if ps[i].valid {
          ps[i].SendMessage(CardsMsg(ps[i].cards));
          ps[i].state := TurnSync;
        }
        i := i + 1;
      }
    }

    /** The end of the game: every valid player becomes invalid. */
    method EndPlayers()
      requires NoRepeats(players.players)
      modifies players.players
      ensures players.Snap() == EndAll(old(players.Snap()))
    {
      var ps := players.players;
      ghost var s := players.Snap();
      var i := 0;
      while i < |ps|
        invariant 0 <= i <= |ps|
        invariant forall m :: 0 <= m < |ps| ==> ps[m].Data() == (if m < i then EndAll(s)[m] else s[m])
      {
        if ps[i].valid {
          ps[i].valid := false;
        }
        i := i + 1;
      }
    }

    /** BEGIN_SYNC of global_operations. */
    method SyncBegin(c: Chance)
      requires NoRepeats(players.players) && IsShuffle(c.deck, CardCount(resources, gameState.cardSet))
      requires |players.players| > 0 && c.start < |players.players|
      modifies this, players.players
      ensures LostIsInvalid()
      ensures View() == BeginRound(old(View()), resources, c)
    {
      OpenGame(c.deck);
      PickStoryteller(c.start);
    }

    /** The opening of BEGIN_SYNC: the game is dealt and every valid player
        is sent the BEGIN messages. */
    method OpenGame(deck: seq<int>)
      requires NoRepeats(players.players) && IsShuffle(deck, CardCount(resources, gameState.cardSet))
      modifies this, players.players
      ensures currentPlayer == old(currentPlayer)
      ensures var s := old(players.Snap());
        var d := Truncate(deck, CountValid(s));
        var dealt := DealHands(s, d);
        players.Snap() == Begin(dealt, gameState.cardSet, Digest(dealt)) && cards == DealRest(s, d)
    {
      BeginGame(deck);
      var digest := Digest(players.Snap());
      SendBegin(digest);
    }

    /** The storyteller of the first turn: next_player from a random position. */
    method PickStoryteller(start: nat)
      requires NoRepeats(players.players) && start < |players.players|
      modifies this
      ensures cards == old(cards) && LostIsInvalid()
      ensures var next := Successor(players.Snap(), start);
        Cur() == if next.Some? then At(next.value) else NoCurrent
    {
      ghost var next := Successor(players.Snap(), start);
      PositionOfMember(players.players, start);
      currentPlayer := players.NextPlayer(players.players[start]);
      if next.Some? {
        PositionOfMember(players.players, next.value);
      }
    }

    /** TURN_SYNC of global_operations. */
    method SyncTurn()
      requires NoRepeats(players.players) && CountValid(players.Snap()) > 0
      modifies this, players.players
      ensures LostIsInvalid()
      ensures View() == TurnRound(old(View()))
    {
      ghost var t := View();
      SuccessorNoneIffNoValid(t.ps, CurIndex(t));
      ghost var j := Successor(t.ps, CurIndex(t)).value;
      PassTurn();
      AnnounceTurn(j);
    }

    /** The storyteller moves on: next_player from the current one. */
    method PassTurn()
      requires NoRepeats(players.players) && CountValid(players.Snap()) > 0
      modifies this
      ensures cards == old(cards)
      ensures var t := old(View());
        Successor(t.ps, CurIndex(t)).Some? &&
        var j := Successor(t.ps, CurIndex(t)).value;
        j < |players.players| && currentPlayer == players.players[j] && Cur() == At(j)
    {
      ghost var t := View();
      assert StartOf(players.players, currentPlayer) == CurIndex(t);
      SuccessorNoneIffNoValid(t.ps, CurIndex(t));
      ghost var j := Successor(t.ps, CurIndex(t)).value;
      currentPlayer := players.NextPlayer(currentPlayer);
      PositionOfMember(players.players, j);
    }

    /** The new storyteller at position j gets the turn and everyone is told. */
    method AnnounceTurn(ghost j: nat)
      requires NoRepeats(players.players) && j < |players.players| && players.players[j] == currentPlayer
      modifies players.players
      ensures players.Snap() == BroadcastTo(GiveTurn(old(players.Snap()), j), TurnMsg(old(players.Snap())[j].number))
    {
      var n := currentPlayer.number;
      GiveTurns(j);
      players.Broadcast(Plain(TurnMsg(n)), 0);
    }

    /** SELF_SYNC of global_operations: `c.ballot` is the shuffled list of
        the cards the valid players played. */
    method SyncSelf(c: Chance)
      requires NoRepeats(players.players) && LostIsInvalid()
      modifies players.players
      ensures LostIsInvalid()
      ensures View() == SelfRound(old(View()), c)
    {
      players.Broadcast(Plain(VoteMsg(c.ballot)), 0);
      players.SetStates(WaitVote);
    }

    /** VOTE_SYNC of global_operations: score the round told by the player
        at position st and publish the status. */
    method SyncVote(ghost st: nat)
      requires NoRepeats(players.players) && st < |players.players|
      requires players.players[st] == currentPlayer && currentPlayer.valid
      modifies players.players
      ensures LostIsInvalid()
      ensures View() == VoteRound(old(View()).(cur := At(st)))
    {
      CalculateResult(st);
      PublishStatus(st);
      PositionOfMember(players.players, st);
    }

    /** The end of VOTE_SYNC: everyone is sent the storyteller's card, the
        plays and the scores, and waits for the next turn. */
    method PublishStatus(ghost st: nat)
      requires NoRepeats(players.players) && st < |players.players| && players.players[st] == currentPlayer
      modifies players.players
      ensures var s := old(players.Snap());
        players.Snap() == SetStates(BroadcastTo(s, StatusMsg(s[st].currentCard, Plays(s), ScoreList(s))), WaitNextTurn)
    {
      var s := players.Snap();
      var status := StatusMsg(currentPlayer.currentCard, Plays(s), ScoreList(s));
      players.Broadcast(Plain(status), 0);
      players.SetStates(WaitNextTurn);
    }

    /** The first half of SYNC_NEXT_TURN: played cards are discarded and,
        when the deck can serve every valid player, each draws one. */
    method Replenish()
      requires NoRepeats(players.players)
      modifies this, players.players
      ensures currentPlayer == old(currentPlayer)
      ensures players.Snap() == Replenished(old(players.Snap()), old(cards))
      ensures cards == RestDeck(old(players.Snap()), old(cards))
    {
      ghost var s := players.Snap();
      DiscardPlayed();
      var n := players.Len();
      if |cards| >= n {
        DrawCards();
      }
    }

    /** The second half of SYNC_NEXT_TURN: the game ends when the first valid
        player holds no card, otherwise every valid player is sent its hand. */
    method EndOrDeal()
      requires NoRepeats(players.players) && CountValid(players.Snap()) > 0
      modifies players.players
      ensures var s := old(players.Snap());
        players.Snap() == if !GameOver(s) then DealtOut(s) else EndAll(BroadcastTo(s, EndGameMsg))
    {
      ghost var s := players.Snap();
      var first := FirstValid();
      if |players.players[first].cards| > 0 {
        DealOut();
      } else {
        players.Broadcast(Plain(EndGameMsg), 0);
        EndPlayers();
      }
    }

    /** SYNC_NEXT_TURN of global_operations. */
    method SyncNextRound()
      requires NoRepeats(players.players) && CountValid(players.Snap()) > 0 && LostIsInvalid()
      modifies this, players.players
      ensures LostIsInvalid()
      ensures View() == NextTurnRound(old(View()))
    {
      ghost var t := View();
      Replenish();
      EndOrDeal();
    }

    /** The storyteller-lost recovery of global_operations: when the current
        player fails verify(), every valid player goes back to TURN_SYNC. */
    method RecoverStoryteller()
      requires NoRepeats(players.players) && LostIsInvalid()
      modifies players.players
      ensures LostIsInvalid()
      ensures View() == Recover(old(View()))
    {
      if currentPlayer != null {
        if !currentPlayer.Verify() {
          players.SetStates(TurnSync);
        }
      }
    }

    /** The barrier step of global_operations: the transition of the state
        every valid player has reached, if any.  `c` holds the outcomes of
        shuffle and randrange. */
    method RunBarrier(c: Chance)
      requires NoRepeats(players.players) && LostIsInvalid()
      requires IsShuffle(c.deck, CardCount(resources, gameState.cardSet)) && Ready(View(), c)
      modifies this, players.players
      ensures LostIsInvalid()
      ensures View() == Barrier(old(View()), resources, c)
    {
      ghost var t := View();
      var cond := GetSyncState();
      if cond == Some(BeginSync) {
        BarrierBegin(t, resources, c);
        RunBeginBarrier(c);
      } else if cond == Some(TurnSync) {
        BarrierTurn(t, resources, c);
        SyncTurn();
      } else {
        RunLateBarrier(c, cond);
      }
    }

    /** BEGIN_SYNC: with at least one valid player the game begins. */
    method RunBeginBarrier(c: Chance)
      requires NoRepeats(players.players) && IsShuffle(c.deck, CardCount(resources, gameState.cardSet))
      requires |players.players| > 0 && c.start < |players.players| && CountValid(players.Snap()) > 0
      modifies this, players.players
      ensures LostIsInvalid()
      ensures View() == BeginRound(old(View()), resources, c)
    {
      var n := players.Len();
      if n > 0 {
        SyncBegin(c);
      } else {
        assert false;
      }
    }

    /** The barriers of the second half of a round: SELF_SYNC, VOTE_SYNC and
        SYNC_NEXT_TURN. */
    method RunLateBarrier(c: Chance, cond: Option<PState>)
      requires NoRepeats(players.players) && LostIsInvalid() && Ready(View(), c)
      requires cond == SyncState(players.Snap()) && cond != Some(BeginSync) && cond != Some(TurnSync)
      modifies this, players.players
      ensures LostIsInvalid()
      ensures View() == Barrier(old(View()), resources, c)
    {
      ghost var t := View();
      if cond == Some(SelfSync) {
        BarrierSelf(t, resources, c);
        SyncSelf(c);
      } else if cond == Some(VoteSync) {
        BarrierVote(t, resources, c);
        SyncVote(Cur().index);
      } else if cond == Some(SyncNextTurn) {
        BarrierNextTurn(t, resources, c);
        SyncNextRound();
      } else {
        BarrierIdle(t, resources, c);
      }
    }

    /** global_operations: recover from a lost storyteller, then perform the
        transition of the barrier every valid player has reached, if any. */
    method GlobalOperations(c: Chance)
      requires Valid() && Coherent(View()) && Fair(View(), resources, c)
      modifies this, players.players
      ensures Valid()
      ensures View() == Orchestrate(old(View()), resources, c)
    {
      ghost var t := View();
      RecoverStoryteller();
      RecoverReady(t, c);
      RunBarrier(c);
      assert players.Valid();
    }
  }
}
