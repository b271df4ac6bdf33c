/** The player protocol state machine (message handling and the input-free
    auto-advances) and the round orchestrator's per-barrier transitions, as
    functions on the roster's player records. */
module Machine {
  import opened Protocol
  import opened Roster
  import opened Rules

  // ---------------------------------------------------------------------------
  // handle_message

  /** `TURN <numeric> <clue word> ...`, the storyteller's association. */
  predicate ClueMsg(t: seq<string>)
  {
    |t| >= 3 && t[0] == "TURN" && IsNumeric(t[1])
  }

  /** `CARD <numeric> ...`, a played card or a vote. */
  predicate CardMsg(t: seq<string>)
  {
    |t| >= 2 && t[0] == "CARD" && IsNumeric(t[1])
  }

  /** The message a player in its current state may send, and nothing else. */
  predicate Accepts(d: PlayerData, t: seq<string>)
  {
    match d.state
    case VerWait => |t| == 2 && t[0] == "OK"
    case StartWait => d.status == MasterRole && |t| == 2 && t[0] == "START_GAME"
    case ReadyWait => |t| == 1 && t[0] == "READY"
    case WaitAssoc => d.hasTurn && ClueMsg(t)
    case WaitSelfCard => !d.hasTurn && CardMsg(t)
    case WaitVote => !d.hasTurn && CardMsg(t)
    case WaitNextTurn => |t| == 1 && t[0] == "NEXT_TURN"
    case _ => false
  }

  /** The state an accepted message leads to. */
  function After(s: PState): PState
  {
    match s
    case VerWait => StartWait
    case StartWait => BeginSync
    case ReadyWait => TurnSync
    case WaitAssoc => WaitSelfCard
    case WaitSelfCard => SelfSync
    case WaitVote => VoteSync
    case WaitNextTurn => SyncNextTurn
    case _ => s
  }

  function Invalidate(ps: seq<PlayerData>, k: nat): seq<PlayerData>
    requires k < |ps|
  {
    ps[k := ps[k].(valid := false)]
  }

  /** `OK <name>` in VER_WAIT: the player takes its name, joins the broadcast
      audience, everyone eligible (itself included) gets the new player list,
      and it waits for the start. */
  function Joined(ps: seq<PlayerData>, k: nat, name: string): (r: seq<PlayerData>)
    requires k < |ps|
    ensures |r| == |ps|
    ensures r[k].valid == ps[k].valid && r[k].state == StartWait
    ensures r[k].name == name && r[k].getBroadcast
    ensures forall j :: 0 <= j < |ps| && j != k ==> SameButQueue(ps[j], r[j])
  {
    var ps1 := ps[k := ps[k].(name := name, getBroadcast := true)];
    var ps2 := BroadcastTo(ps1, PlayerListMsg(Digest(ps1)));
    ps2[k := ps2[k].(state := StartWait)]
  }

  /** A well-formed association: the storyteller's secret card is recorded,
      every valid player moves on to submitting a card, and the clue words are
      broadcast. */
  function Associated(ps: seq<PlayerData>, k: nat, t: seq<string>): (r: seq<PlayerData>)
    requires k < |ps| && ClueMsg(t)
    ensures |r| == |ps|
    ensures r[k].currentCard == Some(ParseNat(t[1]))
    ensures forall j :: 0 <= j < |ps| ==> r[j].valid == ps[j].valid
    ensures forall j :: 0 <= j < |ps| && ps[j].valid ==> r[j].state == WaitSelfCard
    ensures forall j :: 0 <= j < |ps| && !ps[j].valid ==> r[j].state == ps[j].state
  {
    var ps1 := ps[k := ps[k].(currentCard := Some(ParseNat(t[1])), selectedCard := Some(-1))];
    BroadcastTo(SetStates(ps1, WaitSelfCard), AssocMsg(t[2..]))
  }

  /** A well-formed card submission by a non-storyteller: the card is recorded,
      every eligible player learns who submitted, and the player waits. */
  function Submitted(ps: seq<PlayerData>, k: nat, card: nat): (r: seq<PlayerData>)
    requires k < |ps|
    ensures |r| == |ps|
    ensures r[k].valid == ps[k].valid && r[k].state == SelfSync && r[k].currentCard == Some(card)
    ensures forall j :: 0 <= j < |ps| && j != k ==> SameButQueue(ps[j], r[j])
  {
    var ps1 := ps[k := ps[k].(currentCard := Some(card))];
    var ps2 := BroadcastTo(ps1, PlayerMsg(ps[k].number));
    ps2[k := ps2[k].(state := SelfSync)]
  }

  /** Roster and session after a message handled by a player. */
  datatype Step = Step(ps: seq<PlayerData>, session: Session)

  /** Player k handles the tokens `t` of one received line. */
  function OnMessage(ps: seq<PlayerData>, k: nat, t: seq<string>, g: Session): (r: Step)
    requires k < |ps|
    ensures |r.ps| == |ps|
  {
    var me := ps[k];
    match me.state
    case VerWait =>
      if |t| != 2 || t[0] != "OK" then Step(Invalidate(ps, k), g)
      else Step(Joined(ps, k, t[1]), g)
    case StartWait =>
      if me.status != MasterRole then Step(Invalidate(ps, k), g)
      else if |t| != 2 || t[0] != "START_GAME" then Step(Invalidate(ps, k), g)
      else Step(ps[k := me.(state := BeginSync)], Session(Game, t[1]))
    case ReadyWait =>
      if |t| != 1 || t[0] != "READY" then Step(Invalidate(ps, k), g)
      else Step(ps[k := me.(state := TurnSync)], g)
    case WaitAssoc =>
      if !me.hasTurn then Step(Invalidate(ps, k), g)
      else if !ClueMsg(t) then Step(SetStates(Invalidate(ps, k), TurnSync), g)
      else Step(Associated(ps, k, t), g)
    case WaitSelfCard =>
      if me.hasTurn || !CardMsg(t) then Step(Invalidate(ps, k), g)
      else Step(Submitted(ps, k, ParseNat(t[1])), g)
    case WaitVote =>
      if me.hasTurn || !CardMsg(t) then Step(Invalidate(ps, k), g)
      else Step(ps[k := me.(selectedCard := Some(ParseNat(t[1])), state := VoteSync)], g)
    case WaitNextTurn =>
      if |t| != 1 || t[0] != "NEXT_TURN" then Step(Invalidate(ps, k), g)
      else Step(ps[k := me.(state := SyncNextTurn)], g)
    case _ => Step(Invalidate(ps, k), g)
  }

  /** The states in which a turn's messages are expected. */
  predicate InTurn(s: PState)
  {
    s == WaitAssoc || s == WaitSelfCard || s == WaitVote || s == WaitNextTurn
  }

  /** A valid player stays valid exactly when its message is the one its state
      expects, and then moves to the next state; any other message invalidates it. */
  lemma MessageOutcome(ps: seq<PlayerData>, k: nat, t: seq<string>, g: Session)
    requires k < |ps| && ps[k].valid
    ensures var r := OnMessage(ps, k, t, g);
      && (r.ps[k].valid <==> Accepts(ps[k], t))
      && (Accepts(ps[k], t) ==> r.ps[k].state == After(ps[k].state))
      && (!Accepts(ps[k], t) ==> r.ps[k].state == ps[k].state)
  {
    if InTurn(ps[k].state) {
      TurnMessageOutcome(ps, k, t, g);
    } else if ps[k].state == VerWait || ps[k].state == StartWait || ps[k].state == ReadyWait {
      SetupMessageOutcome(ps, k, t, g);
    }
  }

  lemma SetupMessageOutcome(ps: seq<PlayerData>, k: nat, t: seq<string>, g: Session)
    requires k < |ps| && ps[k].valid
    requires ps[k].state == VerWait || ps[k].state == StartWait || ps[k].state == ReadyWait
    ensures var r := OnMessage(ps, k, t, g);
      && (r.ps[k].valid <==> Accepts(ps[k], t))
      && (Accepts(ps[k], t) ==> r.ps[k].state == After(ps[k].state))
      && (!Accepts(ps[k], t) ==> r.ps[k].state == ps[k].state)
  {
  }

  lemma TurnMessageOutcome(ps: seq<PlayerData>, k: nat, t: seq<string>, g: Session)
    requires k < |ps| && ps[k].valid && InTurn(ps[k].state)
    ensures var r := OnMessage(ps, k, t, g);
      && (r.ps[k].valid <==> Accepts(ps[k], t))
      && (Accepts(ps[k], t) ==> r.ps[k].state == After(ps[k].state))
      && (!Accepts(ps[k], t) ==> r.ps[k].state == ps[k].state)
  {
  }

  /** A player waiting at a barrier has nothing to say: any message invalidates
      it and changes nothing else. */
  lemma BarrierIgnoresMessages(ps: seq<PlayerData>, k: nat, t: seq<string>, g: Session)
    requires k < |ps| && IsBarrier(ps[k].state)
    ensures OnMessage(ps, k, t, g) == Step(Invalidate(ps, k), g)
  {
  }

  /** Outside WAIT_ASSOC a message changes other players' output queues at most. */
  lemma MessageTouchesOthersQueuesOnly(ps: seq<PlayerData>, k: nat, t: seq<string>, g: Session)
    requires k < |ps| && ps[k].state != WaitAssoc
    ensures forall j :: 0 <= j < |ps| && j != k ==> SameButQueue(ps[j], OnMessage(ps, k, t, g).ps[j])
  {
  }

  /** The storyteller's association in WAIT_ASSOC: a malformed one invalidates
      the storyteller and sends every remaining valid player back to TURN_SYNC;
      a well-formed one records the secret card, moves every valid player to
      WAIT_SELF_CARD and passes the clue words to every eligible player. */
  lemma StorytellerClue(ps: seq<PlayerData>, k: nat, t: seq<string>, g: Session)
    requires k < |ps| && ps[k].valid && ps[k].state == WaitAssoc && ps[k].hasTurn
    ensures var r := OnMessage(ps, k, t, g);
      && r.session == g
      && (!ClueMsg(t) ==>
            !r.ps[k].valid &&
            forall j :: 0 <= j < |ps| && j != k && ps[j].valid ==> r.ps[j].state == TurnSync)
      && (ClueMsg(t) ==>
            r.ps[k].currentCard == Some(ParseNat(t[1])) &&
            (forall j :: 0 <= j < |ps| && ps[j].valid ==> r.ps[j].valid && r.ps[j].state == WaitSelfCard) &&
            (forall j :: 0 <= j < |ps| && Eligible(ps[j]) ==> Outbox(r.ps[j]) == Outbox(ps[j]) + [AssocMsg(t[2..])]))
  {
  }

  /** Handshake: after `OK <name>` in VER_WAIT the player is named, receives
      broadcasts from now on, waits for the start, and the player list it is
      sent names it. */
  lemma JoinHandshake(ps: seq<PlayerData>, k: nat, name: string, g: Session)
    requires k < |ps| && ps[k].valid && ps[k].state == VerWait
    ensures var r := OnMessage(ps, k, ["OK", name], g);
      && r.ps[k].name == name && r.ps[k].getBroadcast && r.ps[k].state == StartWait
      && exists entries :: Outbox(r.ps[k]) == Outbox(ps[k]) + [PlayerListMsg(entries)] &&
           (ps[k].number, name) in entries
  {
    var ps1 := ps[k := ps[k].(name := name, getBroadcast := true)];
    DigestMembers(ps1, (ps[k].number, name));
  }

  /** Only the master, while waiting for the start, can start the game. */
  lemma OnlyMasterStarts(ps: seq<PlayerData>, k: nat, t: seq<string>, g: Session)
    requires k < |ps| && g.phase != Game
    ensures OnMessage(ps, k, t, g).session.phase == Game ==>
      ps[k].status == MasterRole && ps[k].state == StartWait && t[0] == "START_GAME" &&
      OnMessage(ps, k, t, g).session.cardSet == t[1]
  {
  }

  /** The master waiting for the start, sending `START_GAME <set>`, puts the
      session in GAME with that card set and moves on to BEGIN_SYNC; nobody
      else changes. */
  lemma MasterStartsGame(ps: seq<PlayerData>, k: nat, cardSet: string, g: Session)
    requires k < |ps| && ps[k].status == MasterRole && ps[k].state == StartWait
    ensures var r := OnMessage(ps, k, ["START_GAME", cardSet], g);
      && r.session == Session(Game, cardSet)
      && r.ps[k].valid == ps[k].valid && r.ps[k].state == BeginSync
      && (forall j :: 0 <= j < |ps| && j != k ==> r.ps[j] == ps[j])
  {
  }

  /** A vote: a non-storyteller in WAIT_VOTE sending `CARD <n>` records n as
      its selected card and reaches VOTE_SYNC; nobody else changes. */
  lemma VoteRecorded(ps: seq<PlayerData>, k: nat, t: seq<string>, g: Session)
    requires k < |ps| && ps[k].state == WaitVote && !ps[k].hasTurn && CardMsg(t)
    ensures var r := OnMessage(ps, k, t, g);
      && r.session == g
      && r.ps[k] == ps[k].(selectedCard := Some(ParseNat(t[1])), state := VoteSync)
      && (forall j :: 0 <= j < |ps| && j != k ==> r.ps[j] == ps[j])
  {
  }

  // ---------------------------------------------------------------------------
  // handle_state

  /** The first input-free checks, on the player's own record: a new
      connection announces the version and waits for the answer, a player
      waiting for the start joins BEGIN_SYNC once the game runs, and one still
      in the handshake then is invalidated. */
  function Greeted(d: PlayerData, g: Session, res: Resources): (r: PlayerData)
    ensures r.hasTurn == d.hasTurn && r.number == d.number
  {
    var d1 := if d.state == VerCheck then Send(d, VersionMsg(d.number, d.status, res.name, res.link)).(state := VerWait) else d;
    var d2 := if d1.state == StartWait && g.phase == Game then d1.(state := BeginSync) else d1;
    if d2.state == VerWait && g.phase == Game then d2.(valid := false) else d2
  }

  /** Player k's input-free checks, applied one after the other as in the
      source: its own record first, then the storyteller's automatic card
      submission (announced to everyone) and vote. */
  function OnState(ps: seq<PlayerData>, k: nat, g: Session, res: Resources): (r: seq<PlayerData>)
    requires k < |ps|
    ensures |r| == |ps|
  {
    StorytellerSkips(ps[k := Greeted(ps[k], g, res)], k)
  }

  /** The storyteller's own card submission (announced to everyone) and vote
      are taken as done. */
  function StorytellerSkips(ps: seq<PlayerData>, k: nat): (r: seq<PlayerData>)
    requires k < |ps|
    ensures |r| == |ps|
  {
    var ps4 := if ps[k].state == WaitSelfCard && ps[k].hasTurn
      then BroadcastTo(ps[k := ps[k].(state := SelfSync)], PlayerMsg(ps[k].number))
      else ps;
    if ps4[k].state == WaitVote && ps4[k].hasTurn then ps4[k := ps4[k].(state := VoteSync)] else ps4
  }

  /** A new connection announces the version, the player's number and role and
      the resource pack, then waits for the client's answer; a player still in
      the handshake when the game starts is invalidated. */
  lemma StateHandshake(ps: seq<PlayerData>, k: nat, g: Session, res: Resources)
    requires k < |ps| && ps[k].state == VerCheck
    ensures var r := OnState(ps, k, g, res);
      && r[k].state == VerWait
      && Outbox(r[k]) == Outbox(ps[k]) + [VersionMsg(ps[k].number, ps[k].status, res.name, res.link)]
      && r[k].valid == (ps[k].valid && g.phase != Game)
  {
    var d := Greeted(ps[k], g, res);
    assert d.state == VerWait;
    assert OnState(ps, k, g, res) == ps[k := d];
  }

  /** The storyteller skips its own card submission and vote. */
  lemma StorytellerAutoAdvance(ps: seq<PlayerData>, k: nat, g: Session, res: Resources)
    requires k < |ps| && ps[k].hasTurn && (ps[k].state == WaitSelfCard || ps[k].state == WaitVote)
    ensures OnState(ps, k, g, res)[k].state == (if ps[k].state == WaitSelfCard then SelfSync else VoteSync)
  {
  }

  /** Barrier states are never advanced by the player's own checks. */
  lemma StateKeepsBarriers(ps: seq<PlayerData>, k: nat, g: Session, res: Resources)
    requires k < |ps| && IsBarrier(ps[k].state)
    ensures OnState(ps, k, g, res) == ps
  {
  }

  /** The event loop runs every valid player's checks in roster order
      (`for player in players: player.handle_state()`); validity is re-read as
      the iteration reaches each player. */
  function AdvanceUpTo(ps: seq<PlayerData>, g: Session, res: Resources, m: nat): (r: seq<PlayerData>)
    requires m <= |ps|
    ensures |r| == |ps|
  {
    if m == 0 then ps
    else
      var q := AdvanceUpTo(ps, g, res, m - 1);
      if q[m - 1].valid then OnState(q, m - 1, g, res) else q
  }

  // ---------------------------------------------------------------------------
  // The protocol invariant that makes the storyteller well defined.

  /** States a player can be in before any storyteller has been chosen. */
  predicate PreTurn(s: PState)
  {
    s == VerCheck || s == VerWait || s == StartWait || s == BeginSync || s == ReadyWait || s == TurnSync
  }

  predicate AllPreTurn(ps: seq<PlayerData>)
  {
    forall i :: 0 <= i < |ps| && ps[i].valid ==> PreTurn(ps[i].state)
  }

  lemma {:induction false} MessageKeepsPreTurn(ps: seq<PlayerData>, k: nat, t: seq<string>, g: Session)
    requires k < |ps| && ps[k].valid && AllPreTurn(ps)
    ensures AllPreTurn(OnMessage(ps, k, t, g).ps)
  {
    var r := OnMessage(ps, k, t, g).ps;
    forall i | 0 <= i < |r| && r[i].valid
      ensures PreTurn(r[i].state)
    {
      assert ps[i].valid;
    }
  }

  lemma {:induction false} StateKeepsPreTurn(ps: seq<PlayerData>, k: nat, g: Session, res: Resources)
    requires k < |ps| && AllPreTurn(ps)
    ensures AllPreTurn(OnState(ps, k, g, res))
  {
    var r := OnState(ps, k, g, res);
    forall i | 0 <= i < |r| && r[i].valid
      ensures PreTurn(r[i].state)
    {
      assert ps[i].valid;
    }
  }

  lemma {:induction false} AdvanceKeepsPreTurn(ps: seq<PlayerData>, g: Session, res: Resources, m: nat)
    requires m <= |ps| && AllPreTurn(ps)
    ensures AllPreTurn(AdvanceUpTo(ps, g, res, m))
  {
    if m > 0 {
      AdvanceKeepsPreTurn(ps, g, res, m - 1);
      var q := AdvanceUpTo(ps, g, res, m - 1);
      if q[m - 1].valid {
        StateKeepsPreTurn(q, m - 1, g, res);
      }
    }
  }

  // ---------------------------------------------------------------------------
  // global_operations

  /** Where current_player stands: not chosen yet, at an index of the list, or
      no longer in the list (removed by the sweep). */
  datatype Cur = NoCurrent | At(index: nat) | Gone

  /** The state global_operations reads and writes. */
  datatype Table = Table(ps: seq<PlayerData>, deck: seq<int>, cur: Cur, session: Session)

  /** The outcomes of shuffle and randrange for one iteration: the shuffled
      full deck, the random starting index, and the shuffled ballot. */
  datatype Chance = Chance(deck: seq<int>, start: nat, ballot: seq<Option<int>>)

  /** The invariant every iteration keeps: the current player's index is in
      range, and before a storyteller exists nobody is past TURN_SYNC. */
  predicate Coherent(t: Table)
  {
    && (t.cur.At? ==> t.cur.index < |t.ps|)
    && (t.cur.NoCurrent? ==> AllPreTurn(t.ps))
  }

  /** What shuffle and randrange can return for this table: a permutation of
      the card set's numbers, a permutation of the played cards, and an index
      of the list. */
  predicate Fair(t: Table, res: Resources, c: Chance)
  {
    && IsShuffle(c.deck, CardCount(res, t.session.cardSet))
    && multiset(c.ballot) == multiset(PlayedCards(t.ps))
    && (|t.ps| > 0 ==> c.start < |t.ps|)
  }

  /** Whether the storyteller is gone or fails verify(). */
  predicate StorytellerLost(t: Table)
    requires t.cur.At? ==> t.cur.index < |t.ps|
  {
    t.cur.Gone? || (t.cur.At? && !Verify(t.ps[t.cur.index]))
  }

  /** Storyteller-lost recovery: every valid player goes back to TURN_SYNC. */
  function Recover(t: Table): (r: Table)
    requires t.cur.At? ==> t.cur.index < |t.ps|
    ensures |r.ps| == |t.ps| && r.cur == t.cur && r.deck == t.deck && r.session == t.session
    ensures forall i :: 0 <= i < |t.ps| ==> r.ps[i].valid == t.ps[i].valid
    ensures CountValid(r.ps) == CountValid(t.ps)
    ensures StorytellerLost(t) ==> forall i :: 0 <= i < |t.ps| && t.ps[i].valid ==> r.ps[i].state == TurnSync
    ensures !StorytellerLost(t) ==> r == t
  {
    var ps := SetStates(t.ps, TurnSync);
    SameValidity(t.ps, ps);
    if StorytellerLost(t) then t.(ps := ps) else t
  }

  /** The personal BEGIN message: card set, own hand, and the player list. */
  function Begin(ps: seq<PlayerData>, cardSet: string, digest: seq<(int, string)>): (r: seq<PlayerData>)
    ensures |r| == |ps|
    ensures forall i :: 0 <= i < |ps| && ps[i].valid ==>
      && r[i].valid && r[i].state == ReadyWait && r[i].cards == ps[i].cards
      && Outbox(r[i]) == Outbox(ps[i]) + [BeginMsg(cardSet, ps[i].cards, digest)]
    ensures forall i :: 0 <= i < |ps| && !ps[i].valid ==> r[i] == ps[i]
  {
    seq(|ps|, i requires 0 <= i < |ps| =>
      if ps[i].valid then Send(ps[i].(state := ReadyWait), BeginMsg(cardSet, ps[i].cards, digest)) else ps[i])
  }

  /** BEGIN_SYNC: size the shuffled deck for the number of valid players, deal
      6 cards to each valid player, send everyone its hand, and choose the
      player after a random one as storyteller-to-be. */
  function BeginRound(t: Table, res: Resources, c: Chance): (r: Table)
    requires |t.ps| > 0 ==> c.start < |t.ps|
    ensures |r.ps| == |t.ps|
    ensures r.cur.At? ==> r.cur.index < |r.ps| && r.ps[r.cur.index].valid
  {
    var d := Truncate(c.deck, CountValid(t.ps));
    var ps1 := DealHands(t.ps, d);
    var ps2 := Begin(ps1, t.session.cardSet, Digest(ps1));
    var next := Successor(ps2, c.start);
    Table(ps2, DealRest(t.ps, d), if next.Some? then At(next.value) else NoCurrent, t.session)
  }

  /** Index next_player starts from for the current player. */
  function CurIndex(t: Table): nat
  {
    match t.cur
    case At(i) => if i < |t.ps| then i else 0
    case _ => 0
  }

  /** Give the turn to player j: only j has the turn, everyone waits for the association. */
  function GiveTurn(ps: seq<PlayerData>, j: nat): (r: seq<PlayerData>)
    ensures |r| == |ps|
  {
    seq(|ps|, i requires 0 <= i < |ps| =>
      if ps[i].valid then ps[i].(hasTurn := i == j, state := WaitAssoc) else ps[i])
  }

  /** TURN_SYNC: the next valid player after the current one tells the story. */
  function TurnRound(t: Table): (r: Table)
    requires CountValid(t.ps) > 0
    ensures |r.ps| == |t.ps| && r.cur.At? && r.cur.index < |t.ps|
  {
    SuccessorNoneIffNoValid(t.ps, CurIndex(t));
    var j := Successor(t.ps, CurIndex(t)).value;
    SuccessorIsNextValid(t.ps, CurIndex(t));
    Table(BroadcastTo(GiveTurn(t.ps, j), TurnMsg(t.ps[j].number)), t.deck, At(j), t.session)
  }

  /** SELF_SYNC: publish the shuffled cards and collect votes. */
  function SelfRound(t: Table, c: Chance): (r: Table)
    ensures |r.ps| == |t.ps|
  {
    t.(ps := SetStates(BroadcastTo(t.ps, VoteMsg(c.ballot)), WaitVote))
  }

  /** current_card of every valid player, in roster order: what is shuffled into the ballot. */
  function PlayedCards(ps: seq<PlayerData>): seq<Option<int>>
    decreases |ps|
  {
    if ps == [] then []
    else PlayedCards(ps[..|ps| - 1]) + (if ps[|ps| - 1].valid then [ps[|ps| - 1].currentCard] else [])
  }

  /** Moving players between states does not change the played cards. */
  lemma {:induction false} PlayedCardsIgnoreStates(ps: seq<PlayerData>, st: PState)
    ensures PlayedCards(SetStates(ps, st)) == PlayedCards(ps)
    decreases |ps|
  {
    if ps != [] {
      var init := ps[..|ps| - 1];
      PlayedCardsIgnoreStates(init, st);
      assert SetStates(ps, st)[..|ps| - 1] == SetStates(init, st);
    }
  }

  /** number;current_card;selected_card of every valid player. */
  function Plays(ps: seq<PlayerData>): seq<(int, Option<int>, Option<int>)>
    decreases |ps|
  {
    if ps == [] then []
    else
      var d := ps[|ps| - 1];
      Plays(ps[..|ps| - 1]) + (if d.valid then [(d.number, d.currentCard, d.selectedCard)] else [])
  }

  /** number;score of every valid player. */
  function ScoreList(ps: seq<PlayerData>): seq<(int, int)>
    decreases |ps|
  {
    if ps == [] then []
    else
      var d := ps[|ps| - 1];
      ScoreList(ps[..|ps| - 1]) + (if d.valid then [(d.number, d.score)] else [])
  }

  /** VOTE_SYNC: score the round and publish the status. */
  function VoteRound(t: Table): (r: Table)
    requires t.cur.At? && t.cur.index < |t.ps|
    ensures |r.ps| == |t.ps|
  {
    var st := t.cur.index;
    var ps1 := Scored(t.ps, st);
    var status := StatusMsg(ps1[st].currentCard, Plays(ps1), ScoreList(ps1));
    t.(ps := SetStates(BroadcastTo(ps1, status), WaitNextTurn))
  }

  /** Send each valid player its hand and start the next turn. */
  function DealtOut(ps: seq<PlayerData>): (r: seq<PlayerData>)
    ensures |r| == |ps|
  {
    seq(|ps|, i requires 0 <= i < |ps| =>
      if ps[i].valid then Send(ps[i], CardsMsg(ps[i].cards)).(state := TurnSync) else ps[i])
  }

  /** Every valid player becomes invalid: the session ends. */
  function EndAll(ps: seq<PlayerData>): (r: seq<PlayerData>)
    ensures |r| == |ps|
  {
    seq(|ps|, i requires 0 <= i < |ps| => ps[i].(valid := false))
  }

  /** Hands after the played cards are discarded and, when the deck holds a
      card for every valid player, one card is drawn by each. */
  function Replenished(ps: seq<PlayerData>, deck: seq<int>): (r: seq<PlayerData>)
    ensures |r| == |ps| && CountValid(r) == CountValid(ps)
    ensures forall i :: 0 <= i < |ps| ==> r[i].valid == ps[i].valid && r[i].state == ps[i].state
  {
    if |deck| >= CountValid(ps) then DrawKeepsRoster(Discard(ps), deck); Draw(Discard(ps), deck) else Discard(ps)
  }

  /** The deck after the draw. */
  function RestDeck(ps: seq<PlayerData>, deck: seq<int>): (r: seq<int>)
    ensures |deck| >= CountValid(ps) ==> |r| == |deck| - CountValid(ps)
    ensures |deck| < CountValid(ps) ==> r == deck
  {
    if |deck| >= CountValid(ps) then deck[CountValid(ps)..] else deck
  }

  /** A player holding the card it played keeps its hand size when the deck
      can serve everyone, and loses that card otherwise. */
  lemma ReplenishedHand(ps: seq<PlayerData>, deck: seq<int>, i: nat)
    requires i < |ps| && ps[i].valid && ps[i].currentCard.Some? && ps[i].currentCard.value in ps[i].cards
    ensures |Replenished(ps, deck)[i].cards| ==
      (if |deck| >= CountValid(ps) then |ps[i].cards| else |ps[i].cards| - 1)
  {
    var d := Discard(ps);
    assert d[i].cards == RemoveFirst(ps[i].cards, ps[i].currentCard);
  }

  /** The game is over when the first valid player's hand is empty. */
  predicate GameOver(ps: seq<PlayerData>)
    requires CountValid(ps) > 0
  {
    |ps[ValidIndices(ps)[0]].cards| == 0
  }

  /** SYNC_NEXT_TURN: played cards leave the hands and the hands are
      replenished; the game ends when the first valid player's hand is empty,
      otherwise everyone is sent its hand and the next turn begins. */
  function NextTurnRound(t: Table): (r: Table)
    requires CountValid(t.ps) > 0
    ensures |r.ps| == |t.ps| && r.cur == t.cur && r.session == t.session
  {
    var ps2 := Replenished(t.ps, t.deck);
    var deck2 := RestDeck(t.ps, t.deck);
    if !GameOver(ps2) then Table(DealtOut(ps2), deck2, t.cur, t.session)
    else Table(EndAll(BroadcastTo(ps2, EndGameMsg)), deck2, t.cur, t.session)
  }

  /** A synchronised state is the state of some valid player. */
  lemma SyncIsSomeState(ps: seq<PlayerData>)
    ensures SyncState(ps).Some? ==>
      exists i :: 0 <= i < |ps| && ps[i].valid && ps[i].state == SyncState(ps).value
  {
    if SyncState(ps).Some? {
      SyncStateSpec(ps, SyncState(ps).value);
      CountValidZero(ps);
    }
  }

  /** Past TURN_SYNC there always is a storyteller in the list: before one is
      chosen every valid player is in a pre-turn state, and after one is lost
      every valid player is sent back to TURN_SYNC. */
  lemma PastTurnHasStoryteller(t: Table)
    requires Coherent(t)
    ensures var s := SyncState(Recover(t).ps);
      s.Some? && !PreTurn(s.value) ==> Recover(t).cur.At?
  {
    SyncIsSomeState(Recover(t).ps);
  }

  /** Once every valid player is synchronised on a state other than
      TURN_SYNC, the storyteller was not lost: recovery would have sent
      everyone to TURN_SYNC. */
  lemma SyncedStoryteller(t: Table)
    requires Coherent(t)
    ensures var s := SyncState(Recover(t).ps);
      s.Some? && s.value != TurnSync ==> !StorytellerLost(t)
  {
    SyncIsSomeState(Recover(t).ps);
  }

  /** What the barrier step relies on: the storyteller's index is in range,
      randrange has a list to pick from, and scoring has a valid storyteller. */
  predicate Ready(t: Table, c: Chance)
  {
    && (t.cur.At? ==> t.cur.index < |t.ps|)
    && (|t.ps| > 0 ==> c.start < |t.ps|)
    && (SyncState(t.ps) == Some(VoteSync) ==> t.cur.At? && t.cur.index < |t.ps| && t.ps[t.cur.index].valid)
  }

  /** After recovery the barrier step can run: a vote barrier is only reached
      with a storyteller that passed verify(). */
  lemma RecoverReady(t: Table, c: Chance)
    requires Coherent(t) && (|t.ps| > 0 ==> c.start < |t.ps|)
    ensures Ready(Recover(t), c)
  {
    PastTurnHasStoryteller(t);
    SyncedStoryteller(t);
  }

  /** The transition of the barrier every valid player has reached, if any:
      nothing happens unless all valid players share one of the barrier states. */
  function Barrier(t: Table, res: Resources, c: Chance): (r: Table)
    requires t.cur.At? ==> t.cur.index < |t.ps|
    requires SyncState(t.ps) == Some(VoteSync) ==> t.cur.At?
    requires |t.ps| > 0 ==> c.start < |t.ps|
    ensures |r.ps| == |t.ps|
  {
    var sync := SyncState(t.ps);
    if sync.None? then t
    else
      SyncStateSpec(t.ps, sync.value);
      match sync.value
      case BeginSync => BeginRound(t, res, c)
      case TurnSync => TurnRound(t)
      case SelfSync => SelfRound(t, c)
      case VoteSync => VoteRound(t)
      case SyncNextTurn => NextTurnRound(t)
      case _ => t
  }

  /** At BEGIN_SYNC the barrier step begins the game. */
  lemma BarrierBegin(t: Table, res: Resources, c: Chance)
    requires Ready(t, c) && SyncState(t.ps) == Some(BeginSync)
    ensures |t.ps| > 0 && c.start < |t.ps| && Barrier(t, res, c) == BeginRound(t, res, c)
  {
    SyncStateSpec(t.ps, BeginSync);
  }

  /** At TURN_SYNC the barrier step passes the turn. */
  lemma BarrierTurn(t: Table, res: Resources, c: Chance)
    requires Ready(t, c) && SyncState(t.ps) == Some(TurnSync)
    ensures CountValid(t.ps) > 0 && Barrier(t, res, c) == TurnRound(t)
  {
    SyncStateSpec(t.ps, TurnSync);
  }

  /** At SELF_SYNC the barrier step opens the vote. */
  lemma BarrierSelf(t: Table, res: Resources, c: Chance)
    requires Ready(t, c) && SyncState(t.ps) == Some(SelfSync)
    ensures Barrier(t, res, c) == SelfRound(t, c)
  {
  }

  /** At VOTE_SYNC the barrier step scores the turn. */
  lemma BarrierVote(t: Table, res: Resources, c: Chance)
    requires Ready(t, c) && SyncState(t.ps) == Some(VoteSync)
    ensures t.cur.At? && t.cur.index < |t.ps| && Barrier(t, res, c) == VoteRound(t)
  {
  }

  /** At SYNC_NEXT_TURN the barrier step replenishes the hands. */
  lemma BarrierNextTurn(t: Table, res: Resources, c: Chance)
    requires Ready(t, c) && SyncState(t.ps) == Some(SyncNextTurn)
    ensures CountValid(t.ps) > 0 && Barrier(t, res, c) == NextTurnRound(t)
  {
    assert Barrier(t, res, c) == NextTurnRound(t);
    SyncStateSpec(t.ps, SyncNextTurn);
  }

  /** Without a barrier state the barrier step changes nothing. */
  lemma BarrierIdle(t: Table, res: Resources, c: Chance)
    requires Ready(t, c)
    requires SyncState(t.ps) !in {Some(BeginSync), Some(TurnSync), Some(SelfSync), Some(VoteSync), Some(SyncNextTurn)}
    ensures Barrier(t, res, c) == t
  {
  }

  /** global_operations: recover from a lost storyteller, then perform the
      transition of the barrier every valid player has reached, if any. */
  function Orchestrate(t: Table, res: Resources, c: Chance): (r: Table)
    requires Coherent(t)
    requires |t.ps| > 0 ==> c.start < |t.ps|
    ensures |r.ps| == |t.ps|
  {
    PastTurnHasStoryteller(t);
    Barrier(Recover(t), res, c)
  }

  // ---------------------------------------------------------------------------
  // Properties of the orchestrator

  /** Nothing happens beyond recovery unless every valid player has reached the same barrier. */
  lemma OrchestrateWaitsForBarrier(t: Table, res: Resources, c: Chance)
    requires Coherent(t) && (|t.ps| > 0 ==> c.start < |t.ps|)
    requires SyncState(Recover(t).ps).None? || !IsBarrier(SyncState(Recover(t).ps).value)
    ensures Orchestrate(t, res, c) == Recover(t)
  {
  }

  /** A lost storyteller restarts the turn: with anyone still valid, the next
      valid player after it tells the story and everyone waits for the clue. */
  lemma LostStorytellerRestartsTurn(t: Table, res: Resources, c: Chance)
    requires Coherent(t) && (|t.ps| > 0 ==> c.start < |t.ps|)
    requires StorytellerLost(t) && CountValid(t.ps) > 0
    ensures Orchestrate(t, res, c) == TurnRound(Recover(t))
  {
    var t1 := Recover(t);
    SameValidity(t.ps, t1.ps);
    SyncStateSpec(t1.ps, TurnSync);
  }

  /** TURN_SYNC hands the turn to exactly one valid player, the successor of
      the previous storyteller, and every valid player waits for its clue. */
  lemma TurnRoundSpec(t: Table)
    requires CountValid(t.ps) > 0
    ensures var r := TurnRound(t); var j := r.cur.index;
      && t.ps[j].valid
      && Successor(t.ps, CurIndex(t)) == Some(j)
      && (forall i :: 0 <= i < |t.ps| && t.ps[i].valid ==>
            r.ps[i].state == WaitAssoc && (r.ps[i].hasTurn <==> i == j))
  {
    SuccessorNoneIffNoValid(t.ps, CurIndex(t));
    SuccessorIsNextValid(t.ps, CurIndex(t));
  }

  /** BEGIN_SYNC for any valid player, the last and the only one included:
      it takes the next (up to) 6 cards of the sized deck in roster order,
      none of which stays in the deck, is sent its own hand in BEGIN, stays
      valid and waits for READY. */
  lemma BeginRoundSpec(t: Table, res: Resources, c: Chance, i: nat, card: int)
    requires |t.ps| > 0 ==> c.start < |t.ps|
    requires Distinct(c.deck)
    requires i < |t.ps| && t.ps[i].valid
    ensures var r := BeginRound(t, res, c); var d := Truncate(c.deck, CountValid(t.ps));
      && r.ps[i].valid && r.ps[i].state == ReadyWait
      && r.ps[i].cards == Portion(d, CountValid(t.ps[..i]), 6) && |r.ps[i].cards| <= 6
      && Outbox(r.ps[i]) == Outbox(t.ps[i]) + [BeginMsg(t.session.cardSet, r.ps[i].cards, Digest(DealHands(t.ps, d)))]
      && (card in r.ps[i].cards ==> card !in r.deck)
  {
    var d := Truncate(c.deck, CountValid(t.ps));
    TruncateSize(c.deck, CountValid(t.ps));
    assert Distinct(d);
    DealLeavesDeck(t.ps, d, i, card);
  }

  /** BEGIN_SYNC gives two valid players no card in common. */
  lemma BeginHandsDisjoint(t: Table, res: Resources, c: Chance, i: nat, j: nat, card: int)
    requires |t.ps| > 0 ==> c.start < |t.ps|
    requires Distinct(c.deck)
    requires i < j < |t.ps| && t.ps[i].valid && t.ps[j].valid
    ensures var r := BeginRound(t, res, c);
      card in r.ps[i].cards ==> card !in r.ps[j].cards
  {
    var d := Truncate(c.deck, CountValid(t.ps));
    TruncateSize(c.deck, CountValid(t.ps));
    assert Distinct(d);
    DealDisjoint(t.ps, d, i, j, card);
  }

  /** After BEGIN_SYNC every valid player waits for READY, and the chosen
      player is a valid player of the list. */
  lemma BeginCoherent(t: Table, res: Resources, c: Chance)
    requires |t.ps| > 0 ==> c.start < |t.ps|
    ensures var r := BeginRound(t, res, c);
      && Coherent(r)
      && (forall i :: 0 <= i < |r.ps| && r.ps[i].valid ==> r.ps[i].state == ReadyWait)
      && (r.cur.At? ==> r.ps[r.cur.index].valid)
  {
  }

  /** The orchestrator keeps the protocol invariant. */
  lemma OrchestrateCoherent(t: Table, res: Resources, c: Chance)
    requires Coherent(t) && (|t.ps| > 0 ==> c.start < |t.ps|)
    ensures Coherent(Orchestrate(t, res, c))
  {
    PastTurnHasStoryteller(t);
    if SyncState(Recover(t).ps) == Some(BeginSync) {
      BeginCoherent(Recover(t), res, c);
    }
  }

  /** A new connection keeps the protocol invariant. */
  lemma JoinCoherent(t: Table, d: PlayerData)
    requires Coherent(t) && d.state == VerCheck
    ensures Coherent(t.(ps := t.ps + [d]))
  {
    var ps := t.ps + [d];
    if t.cur.NoCurrent? {
      forall i | 0 <= i < |ps| && ps[i].valid
        ensures PreTurn(ps[i].state)
      {
        if i < |t.ps| {
          assert ps[i] == t.ps[i];
        }
      }
    }
  }

  /** A message keeps the protocol invariant. */
  lemma MessageCoherent(t: Table, k: nat, tokens: seq<string>)
    requires Coherent(t) && k < |t.ps| && t.ps[k].valid
    ensures Coherent(t.(ps := OnMessage(t.ps, k, tokens, t.session).ps))
  {
    if t.cur.NoCurrent? {
      MessageKeepsPreTurn(t.ps, k, tokens, t.session);
    }
  }

  /** check removes one player and at most queues a player list: the states
      of the others are untouched, so nobody gets past TURN_SYNC. */
  lemma SweepKeepsPreTurn(ps: seq<PlayerData>, phase: Phase)
    requires AllPreTurn(ps)
    ensures AllPreTurn(Sweep(ps, phase).ps)
  {
    if FirstDead(ps).Some? {
      var i := FirstDead(ps).value;
      var rest := ps[..i] + ps[i + 1..];
      forall m | 0 <= m < |rest| && rest[m].valid
        ensures PreTurn(rest[m].state)
      {
        assert rest[m] == if m < i then ps[m] else ps[m + 1];
      }
    }
  }

  /** check keeps the protocol invariant. The list and phase become those of
      Sweep, and the storyteller's place is recomputed by identity (`cur`):
      it is still absent exactly when it was, and otherwise in range or Gone. */
  lemma SweepCoherent(t: Table, cur: Cur)
    requires Coherent(t)
    requires cur.NoCurrent? <==> t.cur.NoCurrent?
    requires cur.At? ==> cur.index < |Sweep(t.ps, t.session.phase).ps|
    ensures var sw := Sweep(t.ps, t.session.phase);
      Coherent(Table(sw.ps, t.deck, cur, Session(sw.phase, t.session.cardSet)))
  {
    if cur.NoCurrent? {
      SweepKeepsPreTurn(t.ps, t.session.phase);
    }
  }

  /** The write step keeps the protocol invariant: it touches one queue only. */
  lemma FlushCoherent(t: Table, k: nat)
    requires Coherent(t) && k < |t.ps| && t.ps[k].buffer != []
    ensures Coherent(t.(ps := t.ps[k := Flushed(t.ps[k])]))
  {
  }

  /** The auto-advance pass keeps the protocol invariant. */
  lemma AdvanceCoherent(t: Table, res: Resources)
    requires Coherent(t)
    ensures Coherent(t.(ps := AdvanceUpTo(t.ps, t.session, res, |t.ps|)))
  {
    if t.cur.NoCurrent? {
      AdvanceKeepsPreTurn(t.ps, t.session, res, |t.ps|);
    }
  }

  /** End of turn: hands are replenished and the deck shrinks by one card per
      valid player when it can serve them all; the game ends exactly when the
      first valid player's hand is empty, and then every eligible player is told
      and nobody stays valid; otherwise every valid player is sent its hand and
      waits for the next turn. */
  lemma NextTurnSpec(t: Table)
    requires CountValid(t.ps) > 0
    ensures var r := NextTurnRound(t); var ps2 := Replenished(t.ps, t.deck);
      && (forall i :: 0 <= i < |t.ps| ==> r.ps[i].cards == ps2[i].cards)
      && r.deck == RestDeck(t.ps, t.deck)
      && (GameOver(ps2) ==>
            forall i :: 0 <= i < |t.ps| ==>
              !r.ps[i].valid && (Eligible(ps2[i]) ==> Outbox(r.ps[i]) == Outbox(ps2[i]) + [EndGameMsg]))
      && (!GameOver(ps2) ==>
            forall i :: 0 <= i < |t.ps| && t.ps[i].valid ==>
              r.ps[i].valid && r.ps[i].state == TurnSync &&
              Outbox(r.ps[i]) == Outbox(ps2[i]) + [CardsMsg(ps2[i].cards)])
  {
  }
}
