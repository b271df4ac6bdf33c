# Imaginarium server core in Dafny

This project models the game logic of the Imaginarium ("storyteller") server,
`server/server_main.py`. Clients connect, take part in a short text protocol,
and play rounds in lock-step:

- a storyteller gives a clue for a secret card;
- the other players submit matching cards;
- everybody votes;
- scores are updated.

Sockets, threads, randomness, logging and HTTP are removed.
What remains is modelled.

The code is split into five modules:

- `Protocol` (`protocol.dfy`) holds the value types:
  - phases, roles and the thirteen player states;
  - outgoing messages, as a `Msg` datatype rather than formatted text;
  - the `PlayerData` record of a player's fields;
  - the output queue, as functions on that record;
  - the numeric-token parser.
- `Roster` (`roster.dfy`) holds the player list as a value:
  - iteration and `len` over valid players only;
  - the `#PLAYER_LIST` digest;
  - `broadcast`;
  - the circular successor search of `next_player`;
  - the dead-player sweep of `check`.
- `Rules` (`rules.dfy`) holds the game rules:
  - barrier detection (`get_sync_state`);
  - card count, deck truncation and dealing (`begin_game`);
  - scoring (`calculate_result`);
  - discarding and drawing at the end of a turn.
- `Machine` (`machine.dfy`) holds the player protocol state machine and the orchestrator, both as functions on player records:
  - `handle_message` is `OnMessage`;
  - `handle_state` is `OnState`;
  - `global_operations` is `Orchestrate`, over a `Table` of list, deck, storyteller and session.
- `Server` (`server.dfy`) holds the source's classes: `GameState`, `Player`, `PlayerList` and `GameServer`.
  - Their methods update fields in place with the source's loops.
  - Each method is proved against the functions above through record snapshots:
    - `Player.Data()` is one player's fields as a record;
    - `PlayerList.Snap()` is the list's records in order;
    - `GameServer.View()` is the whole server state as a `Table`.
  - A method's contract then has the form `Snap() == F(old(Snap()))`.

An incoming line is modelled as its whitespace tokens, the result of `split()`.

Some connection details are modelled as fields:

| source | modelled as |
|---|---|
| `conn.status` | the `connOk` field |
| `conn` set to `None` after `stop` | the `connOpen` field |
| what `conn.send` has delivered | the `sent` field |

The outcomes of `shuffle` and `randrange` for one call of `global_operations` are a parameter, `Machine.Chance`. It holds:

- the shuffled full deck;
- the random starting index;
- the shuffled ballot.

`Machine.Fair` states what those outcomes can be:

- the deck is a permutation of the card set's numbers;
- the ballot is a permutation of the played cards;
- the index is an index of the list.

## Behaviours of the code worth knowing

- **End of game.** After replenishing, the game ends only when the *first valid* player's hand is empty (server/server_main.py:900). Other players' hands are not looked at. `Machine.GameOver` states this.
- **Short hands.** A player can be dealt fewer than 6 cards. With 5 players and a 50-card set only 27 cards remain, so the fifth player gets 3. `Rules.DealShortHand` shows this.
- **Card sets smaller than the offset.** The deck is truncated with Python slicing, `cards[:len(cards) - offset]`. A negative end counts from the back: a 20-card set with 5 players keeps 17 cards, not none. `Rules.SliceLen` and `Rules.ShortDeckSlice` model this.
- **BEGIN_SYNC with no players.** The ERROR branch for an empty roster at BEGIN_SYNC (server/server_main.py:858-860) is unreachable: `get_sync_state` returns a state only when some valid player exists. `Server.GameServer.RunBeginBarrier` proves the branch dead.
- **One removal per check.** `check` removes only the first player that fails `verify()` (server/server_main.py:583-596). When two players fail, the second stays listed until the next call. `Roster.SweepOneAtATime` shows this.

## Model

| member | source | states |
|---|---|---|
| `Protocol.NewPlayer` | server/server_main.py:184-204 | A new player is in VER_CHECK, valid, not yet eligible for broadcasts, with score 0, an empty queue, nothing sent and an open connection. |
| `Protocol.Send` | server/server_main.py:220-227 | `send_message` appends the message at the back of the queue and sets `has_buffer`; the delivered messages and every other field are unchanged. |
| `Protocol.Pushed` | server/server_main.py:229-233 | `push_buffer` delivers the whole queue in order, leaves it empty and clears `has_buffer`. |
| `Protocol.Flushed` | server/server_main.py:726-729 | The event loop's write step delivers the oldest queued message; `has_buffer` then says whether more remain. |
| `Protocol.QueueIsFifo` | server/server_main.py:220-233 | Two queued messages are delivered in the order they were queued. |
| `Protocol.ParseDigits` | server/server_main.py:306-312 | A numeric token parses back to the number it spells, as `int(res[1])` does. |
| `Server.Player.constructor` | server/server_main.py:184-204 | The new object's record is `NewPlayer`, linked to its resources, GameState and list. |
| `Server.Player.Stop` | server/server_main.py:209-214 | `stop` invalidates the player and closes an open connection; nothing else changes. |
| `Server.Player.SendMessage` | server/server_main.py:220-227 | The player's record after the call is `Send` of the old record. |
| `Server.Player.PushBuffer` | server/server_main.py:229-233 | The `pop(0)` loop leaves the record equal to `Pushed` of the old record. |
| `Server.Player.FlushOne` | server/server_main.py:726-729 | One write step leaves the record equal to `Flushed` of the old record. |
| `Server.Player.HandleMessage` | server/server_main.py:268-348 | After one line, the list's records and the session equal `Machine.OnMessage` of the old ones. |
| `Server.Player.HandleSetup` | server/server_main.py:274-300 | VER_WAIT, START_WAIT and READY_WAIT handling agrees with `OnMessage`, including each invalidation and the START_GAME session change. |
| `Server.Player.HandleTurn` | server/server_main.py:301-345 | WAIT_ASSOC, WAIT_SELF_CARD, WAIT_VOTE and WAIT_NEXT_TURN handling agrees with `OnMessage`, including the roster-wide reset to TURN_SYNC on a malformed clue. |
| `Server.Player.Join` | server/server_main.py:279-282 | `OK <name>` names the player, makes it eligible for broadcasts, broadcasts the player list and moves it to START_WAIT, as `Machine.Joined` states. |
| `Server.Player.Associate` | server/server_main.py:312-316 | A well-formed clue records the secret card, moves every valid player to WAIT_SELF_CARD and broadcasts the clue words, as `Machine.Associated` states. |
| `Server.Player.Submit` | server/server_main.py:323-325 | A submitted card is recorded, a `PLAYER <number>` notice is broadcast and the player waits in SELF_SYNC, as `Machine.Submitted` states. |
| `Server.Player.HandleState` | server/server_main.py:350-367 | The input-free checks leave the list's records equal to `Machine.OnState` of the old ones. |
| `Server.Player.Greet` | server/server_main.py:355-362 | VERSION is sent from VER_CHECK; START_WAIT joins BEGIN_SYNC once the game runs; a player still in VER_WAIT then is invalidated. |
| `Server.Player.SkipOwnTurn` | server/server_main.py:363-367 | The storyteller skips its own submission, announcing it, and its own vote. |
| `Server.Player.DropPlayed` | server/server_main.py:892-896 | The first card of the hand equal to the played card is removed, and nothing else changes. |
| `Machine.OnMessage` | server/server_main.py:268-348 | Defines `handle_message` on the roster records. Its own ensures only fixes the length; `MessageOutcome`, `StorytellerClue`, `JoinHandshake`, `OnlyMasterStarts`, `MasterStartsGame` and `VoteRecorded` state what it does. |
| `Machine.MessageOutcome` | server/server_main.py:268-348 | A valid player stays valid exactly when the message is the one its state accepts, and then moves to the next protocol state; otherwise its state is unchanged. |
| `Machine.SetupMessageOutcome` | server/server_main.py:274-300 | The same outcome rule for the three pre-game states. |
| `Machine.TurnMessageOutcome` | server/server_main.py:301-345 | The same outcome rule for the four in-turn states. |
| `Machine.BarrierIgnoresMessages` | server/server_main.py:346-348 | A message received in a barrier state only invalidates the sender. |
| `Machine.MessageTouchesOthersQueuesOnly` | server/server_main.py:268-348 | Outside WAIT_ASSOC a message changes other players' output queues at most. |
| `Machine.StorytellerClue` | server/server_main.py:301-316 | A malformed clue invalidates the storyteller and sends every other valid player to TURN_SYNC. A well-formed one records the card, moves all valid players to WAIT_SELF_CARD and sends the clue words to every eligible player. |
| `Machine.JoinHandshake` | server/server_main.py:274-282 | After `OK <name>` the player is named, eligible and in START_WAIT, and the player list it receives names it. |
| `Machine.OnlyMasterStarts` | server/server_main.py:283-294 | Only the MASTER, in START_WAIT, sending `START_GAME <set>`, can put the session in GAME, with that card set. |
| `Machine.MasterStartsGame` | server/server_main.py:283-294 | The MASTER in START_WAIT sending `START_GAME <set>` puts the session in GAME with card set `<set>` and reaches BEGIN_SYNC; nobody else changes. |
| `Machine.VoteRecorded` | server/server_main.py:329-336 | A non-storyteller in WAIT_VOTE sending `CARD <n>` records n as its selected card and reaches VOTE_SYNC; nobody else changes. |
| `Machine.Joined` | server/server_main.py:279-282 | The new player is named, eligible and in START_WAIT; every other player changes only in its queue. |
| `Machine.Associated` | server/server_main.py:312-316 | The storyteller's card is recorded; valid players move to WAIT_SELF_CARD; validity is kept; invalid players keep their state. |
| `Machine.Submitted` | server/server_main.py:323-325 | The submitter records its card and is in SELF_SYNC; every other player changes only in its queue. |
| `Machine.OnState` | server/server_main.py:350-367 | Defines `handle_state` for player k: its own record's checks, then the storyteller's automatic submission and vote. Its own ensures only fixes the length; `StateHandshake`, `StorytellerAutoAdvance` and `StateKeepsBarriers` state what it does. |
| `Machine.AdvanceUpTo` | server/server_main.py:739-740 | Defines the event loop's pass of `handle_state` over the players valid when reached, in list order. Its own ensures only fixes the length; `AdvanceKeepsPreTurn` states what it keeps. |
| `Machine.StateHandshake` | server/server_main.py:355-362 | From VER_CHECK the player is sent VERSION with its number, role and the resource pack, waits in VER_WAIT, and stays valid unless the game has started. |
| `Machine.StorytellerAutoAdvance` | server/server_main.py:363-367 | The storyteller moves from WAIT_SELF_CARD to SELF_SYNC, and from WAIT_VOTE to VOTE_SYNC, on its own. |
| `Machine.StateKeepsBarriers` | server/server_main.py:350-367 | `handle_state` never moves a player out of a barrier state. |
| `Machine.AdvanceKeepsPreTurn` | server/server_main.py:739-740 | Running every valid player's checks keeps everybody in a pre-turn state while no storyteller exists. |
| `Machine.MessageKeepsPreTurn` | server/server_main.py:268-348 | A message keeps everybody in a pre-turn state while no storyteller exists. |
| `Machine.StateKeepsPreTurn` | server/server_main.py:350-367 | One player's checks keep everybody in a pre-turn state while no storyteller exists. |
| `Roster.ValidIndices` | server/server_main.py:567-573 | Iteration visits exactly the valid players, in list order; `len` is their count. |
| `Roster.CountValidZero` | server/server_main.py:572-573 | `len` is 0 exactly when no listed player is valid. |
| `Server.PlayerList.Len` | server/server_main.py:572-573 | The counting loop returns the number of valid players. |
| `Server.PlayerList.constructor` | server/server_main.py:557-565 | A new list is empty, has no MASTER, hands out number 0 next and shares the given GameState. |
| `Server.PlayerList.AddPlayer` | server/server_main.py:627-640 | The new player gets the next sequence number, is MASTER exactly when no master was admitted before, and is appended and mapped under its socket; the list invariant (unique increasing numbers, MASTER is number 0, exact socket map) is kept. |
| `Server.SingleMaster` | server/server_main.py:634-640 | In a valid list numbers are unique, and every player after another is a PLAYER, so there is at most one MASTER. |
| `Roster.DigestMembers` | server/server_main.py:649-652 | A (number, name) pair is in the `PLAYER_LIST` digest exactly when some valid, broadcast-eligible player has that number and name. |
| `Roster.BroadcastTo` | server/server_main.py:655-657 | Every valid, eligible player queues the message and nobody else does; only queues change. |
| `Server.PlayerList.SendAll` | server/server_main.py:655-657 | The broadcast loop leaves the records equal to `BroadcastTo`. |
| `Server.PlayerList.Broadcast` | server/server_main.py:642-657 | The `#PLAYER_LIST` and `#SELF` templates are expanded, then the message is broadcast. |
| `Roster.SetStates` | server/server_main.py:314-315 | Every valid player moves to the state, and no other field or player changes. |
| `Server.PlayerList.SetStates` | server/server_main.py:314-315 | The state loop leaves the records equal to `Roster.SetStates`. |
| `Roster.Successor` | server/server_main.py:598-617 | The player found is a valid one in the list. |
| `Roster.SuccessorIsNextValid` | server/server_main.py:598-617 | The player found is valid, and every player strictly between the start and it, circularly, is invalid. |
| `Roster.SuccessorNoneIffNoValid` | server/server_main.py:598-617 | `next_player` finds nobody exactly when no player is valid. |
| `Roster.ProbeFromSpec` | server/server_main.py:609-617 | Probing from step k finds the first valid player at distance at least k, or shows none exists. |
| `Server.PlayerList.NextPlayer` | server/server_main.py:598-608 | The identity search starts from the player's position, or from 0 when it is not listed, and the result is `Successor`. |
| `Server.PlayerList.ProbeAfter` | server/server_main.py:609-617 | The bounded loop of at most 2n probes returns the `Successor` player, or null exactly when it is None. |
| `Roster.FirstDeadFrom` | server/server_main.py:585-586 | The sweep's target is the first player failing `verify()`; all before it pass. |
| `Roster.SweepRemovesFirstDead` | server/server_main.py:583-596 | `check` removes at most one player, the first failing `verify()`, keeps the others in order, and flushes the removed player's queue before closing it. |
| `Roster.SweepPhase` | server/server_main.py:590-592 | Removing the MASTER while players connect puts the server in ERROR; any other removal keeps the phase. |
| `Roster.SweepAllAlive` | server/server_main.py:583-596 | When every player passes `verify()`, `check` changes nothing. |
| `Roster.SweepOneAtATime` | server/server_main.py:583-596 | With two players failing `verify()`, one `check` shortens the list by one and leaves a failing player for the next call. |
| `Server.PlayerList.FindDead` | server/server_main.py:585-586 | The search returns `FirstDead` of the records. |
| `Server.PlayerList.Check` | server/server_main.py:583-596 | The list and phase after `check` are `Roster.Sweep` of the old ones; the removed object carries the swept record and is no longer valid. |
| `Server.PlayerList.Evict` | server/server_main.py:587-595 | Removing the first failing player gives exactly `Sweep`'s list and phase. |
| `Server.PlayerList.Unlist` | server/server_main.py:587-593 | The player is flushed, stopped and dropped from list and map; the phase is set to ERROR for a MASTER leaving while players connect. |
| `Server.PlayerList.Retire` | server/server_main.py:587-592 | Only player i changes, by flush then stop; the phase rule of `check` applies. |
| `Server.PlayerList.RemoveAt` | server/server_main.py:589-593 | The player leaves the list and the socket map; the list invariant is kept. |
| `Server.PlayerList.Stop` | server/server_main.py:619-625 | Every player is flushed and stopped, then the list and socket map are emptied. |
| `Rules.SyncStateSpec` | server/server_main.py:754-763 | The session is synchronised on S exactly when some player is valid and every valid player is in S. |
| `Server.GameServer.GetSyncState` | server/server_main.py:754-763 | The loop returns `SyncState` of the records. |
| `Server.GameServer.AcceptConnection` | server/server_main.py:775-788 | A connection is admitted exactly when the phase is PLAYER_CONN and fewer than 7 players are valid; then one new player is appended, else nothing changes. |
| `Server.GameServer.constructor` | server/server_main.py:765-773 | `prepare` starts a session in PLAYER_CONN with no players, no deck and no storyteller. |
| `Server.GameState.constructor` | server/server_main.py:145-148 | The shared state starts in the given phase with card set "0". |
| `Rules.CardCount` | server/server_main.py:792-797 | The card count is the configured one, or 50 when the configuration or the entry is missing. |
| `Rules.TruncateSize` | server/server_main.py:802-807 | The deck keeps a prefix, withholding 2, 23 or 26 cards for 4, 5 or 6 players, and nothing for any other count. |
| `Rules.FiftyCardDeck` | server/server_main.py:802-807 | A 50-card set leaves 48, 27, 24 and 50 cards for 4, 5, 6 and 7 players. |
| `Rules.ShortDeckSlice` | server/server_main.py:803-807 | A 20-card set with 5 players keeps 17 cards, by Python's negative slice end. |
| `Rules.DealHands` | server/server_main.py:809-811 | Defines the dealt hands: the valid player with r valid players before it gets cards 6r to 6r+5 of the deck, or what is left. Its own ensures only fixes the length; `DealDisjoint`, `DealFullHands` and `DealShortHand` state its properties. |
| `Rules.DealLeavesDeck` | server/server_main.py:809-811 | With a distinct deck, no card dealt to any valid player (the first and the only one included) stays in the remaining deck. |
| `Rules.DealDisjoint` | server/server_main.py:809-811 | With a distinct deck, the hands of two valid players are disjoint. |
| `Rules.DealFullHands` | server/server_main.py:809-811 | A deck with 6 cards per valid player fills every hand with 6. |
| `Rules.DealShortHand` | server/server_main.py:809-811 | With 27 usable cards the fifth valid player receives only 3. |
| `Server.GameServer.BeginGame` | server/server_main.py:790-811 | The deck is truncated for the valid-player count; each valid player receives `DealHands`' portion; the rest of the deck is kept. |
| `Server.GameServer.Deal` | server/server_main.py:809-811 | The dealing loop gives `DealHands` and leaves `DealRest`. |
| `Server.PlayerList.DealFrom` | server/server_main.py:809-811 | Each valid player, in list order, takes the next 6 cards or what is left. |
| `Rules.Scored` | server/server_main.py:813-834 | Defines the per-player gain of a round. Its own ensures only fixes the length; `ScoreAllCorrect`, `ScoreNotAllCorrect`, `ScoreNobodyCorrect`, `ScoresMonotone` and `ScoredInSteps` state what it does. |
| `Rules.AllCorrectMeans` | server/server_main.py:815-822 | The storyteller's count is at most N-1, and equals N-1 exactly when every other valid player voted for its card. |
| `Rules.ScoredInSteps` | server/server_main.py:822-834 | The source's three score loops add up to `Scored`. |
| `Rules.ScoreAllCorrect` | server/server_main.py:822-825 | When everyone found the card, each other player gains 3, the storyteller 0, and no vote bonus is paid. |
| `Rules.ScoreNotAllCorrect` | server/server_main.py:826-834 | Otherwise each player gains its vote count; if anyone found the card, the storyteller and each correct voter gain 3 more. |
| `Rules.ScoreNobodyCorrect` | server/server_main.py:826-834 | When nobody found the card, the storyteller gains nothing. |
| `Rules.ScoresMonotone` | server/server_main.py:813-834 | Scores never decrease, and only valid players' scores change. |
| `Server.GameServer.Tally` | server/server_main.py:815-821 | The vote counts of every valid player equal `Fooled`, and `told` is the storyteller's. |
| `Server.GameServer.CalculateResult` | server/server_main.py:813-834 | The scores after the call are `Scored` of the old records. |
| `Server.GameServer.RewardOthers` | server/server_main.py:823-825 | Every valid player but the storyteller gains 3. |
| `Server.GameServer.RewardTeller` | server/server_main.py:827-832 | The correct voters and the storyteller gain 3 each. |
| `Server.GameServer.RewardGuessers` | server/server_main.py:828-831 | Every valid non-storyteller that voted for the card gains 3. |
| `Server.GameServer.AddResults` | server/server_main.py:833-834 | Every valid player gains its vote count. |
| `Machine.Recover` | server/server_main.py:838-841 | When the storyteller is gone or fails `verify()`, every valid player goes back to TURN_SYNC; otherwise nothing changes. |
| `Server.GameServer.RecoverStoryteller` | server/server_main.py:838-841 | The recovery step leaves the state equal to `Recover`. |
| `Machine.Orchestrate` | server/server_main.py:836-908 | `global_operations` is recovery followed by the transition of the reached barrier. |
| `Server.GameServer.GlobalOperations` | server/server_main.py:836-908 | The server state afterwards is `Orchestrate` of the old one, and the server invariant is kept. |
| `Server.GameServer.RunBarrier` | server/server_main.py:842-908 | The barrier dispatch leaves the state equal to `Machine.Barrier`. |
| `Server.GameServer.RunBeginBarrier` | server/server_main.py:843-860 | At BEGIN_SYNC there always is a valid player, so the game begins; the ERROR branch is dead. |
| `Server.GameServer.RunLateBarrier` | server/server_main.py:868-908 | The SELF_SYNC, VOTE_SYNC and SYNC_NEXT_TURN transitions agree with `Barrier`; any other state changes nothing. |
| `Machine.Barrier` | server/server_main.py:842-908 | Defines the barrier dispatch on the synchronised state. Its own ensures only fixes the length; the `Barrier*` lemmas state each case. |
| `Machine.BarrierBegin` | server/server_main.py:843-845 | At BEGIN_SYNC the list is non-empty and the step is `BeginRound`. |
| `Machine.BarrierTurn` | server/server_main.py:861-862 | At TURN_SYNC some player is valid and the step is `TurnRound`. |
| `Machine.BarrierSelf` | server/server_main.py:868-875 | At SELF_SYNC the step is `SelfRound`. |
| `Machine.BarrierVote` | server/server_main.py:876-877 | At VOTE_SYNC a listed storyteller exists and the step is `VoteRound`. |
| `Machine.BarrierNextTurn` | server/server_main.py:891-892 | At SYNC_NEXT_TURN some player is valid and the step is `NextTurnRound`. |
| `Machine.BarrierIdle` | server/server_main.py:842-843 | Outside the five barriers nothing happens. |
| `Machine.OrchestrateWaitsForBarrier` | server/server_main.py:842-908 | Unless all valid players share a barrier state, only recovery happens. |
| `Machine.LostStorytellerRestartsTurn` | server/server_main.py:838-867 | A lost storyteller restarts the turn: the next valid player after it tells the story. |
| `Machine.PastTurnHasStoryteller` | server/server_main.py:836-908 | Once the players are synchronised past TURN_SYNC, the storyteller is listed. |
| `Machine.SyncedStoryteller` | server/server_main.py:838-842 | Synchronisation on a state other than TURN_SYNC implies that the storyteller was not lost. |
| `Machine.RecoverReady` | server/server_main.py:838-877 | After recovery the storyteller index is in range, `randrange` has a list, and VOTE_SYNC has a valid storyteller. |
| `Machine.BeginRound` | server/server_main.py:843-857 | Defines BEGIN_SYNC: truncate and deal, send BEGIN, pick the storyteller from the random start. Its ensures keeps the length and puts the chosen storyteller, a valid player, in the list; `BeginRoundSpec`, `BeginHandsDisjoint` and `BeginCoherent` state the rest. |
| `Machine.BeginRoundSpec` | server/server_main.py:843-857 | For every valid player, the last and the only one included: it holds the next (up to) 6 cards of the sized deck in roster order, none of them left in the deck, is sent its own hand in BEGIN, stays valid and waits for READY. |
| `Machine.BeginHandsDisjoint` | server/server_main.py:843-857 | With a distinct deck, two valid players are dealt no card in common. |
| `Machine.Begin` | server/server_main.py:849-854 | The BEGIN step: every valid player keeps its hand, stays valid, waits for READY and has exactly the BEGIN message with its own hand and the digest added to its queue; invalid players are untouched. |
| `Server.GameServer.SyncBegin` | server/server_main.py:843-857 | The BEGIN_SYNC code leaves the state equal to `BeginRound`. |
| `Server.GameServer.OpenGame` | server/server_main.py:845-854 | The game is dealt, and every valid player is sent BEGIN with its hand and the digest. |
| `Server.GameServer.SendBegin` | server/server_main.py:849-854 | The loop leaves the records equal to `Begin`. |
| `Server.GameServer.PickStoryteller` | server/server_main.py:855-857 | The first storyteller is `Successor` of the random start. |
| `Machine.TurnRound` | server/server_main.py:861-867 | Defines TURN_SYNC. Its ensures puts the chosen storyteller in the list; `TurnRoundSpec` states the rest. |
| `Machine.TurnRoundSpec` | server/server_main.py:861-867 | The turn goes to exactly one valid player, the successor of the previous storyteller, and every valid player waits for its clue. |
| `Machine.GiveTurn` | server/server_main.py:863-865 | Defines the turn hand-over: only player j has the turn and every valid player waits for the clue. Its own ensures only fixes the length; `TurnRoundSpec` states the outcome. |
| `Server.GameServer.SyncTurn` | server/server_main.py:861-867 | The TURN_SYNC code leaves the state equal to `TurnRound`. |
| `Server.GameServer.PassTurn` | server/server_main.py:862 | The storyteller becomes the `Successor` of the previous one. |
| `Server.GameServer.AnnounceTurn` | server/server_main.py:863-867 | The turn is given and `TURN <number>` is broadcast. |
| `Server.GameServer.GiveTurns` | server/server_main.py:863-865 | The loop leaves the records equal to `GiveTurn`. |
| `Machine.SelfRound` | server/server_main.py:868-875 | Defines SELF_SYNC: the ballot is broadcast and every valid player waits for votes. Its own ensures only fixes the length. |
| `Machine.PlayedCardsIgnoreStates` | server/server_main.py:869-870 | Moving players between states does not change the cards collected for the ballot. |
| `Server.GameServer.SyncSelf` | server/server_main.py:868-875 | The shuffled ballot is broadcast and every valid player waits for votes. |
| `Machine.VoteRound` | server/server_main.py:876-890 | Defines VOTE_SYNC: score, broadcast the status, wait for the next turn. Its own ensures only fixes the length; the scoring lemmas state the scores. |
| `Server.GameServer.SyncVote` | server/server_main.py:876-890 | The VOTE_SYNC code leaves the state equal to `VoteRound`. |
| `Server.GameServer.PublishStatus` | server/server_main.py:878-890 | The status (true card, plays, scores) is broadcast, and everybody waits for the next turn. |
| `Rules.RemoveFirst` | server/server_main.py:893-896 | When the played card is in the hand, exactly one copy leaves the hand; otherwise the hand is unchanged. |
| `Rules.RemoveFirstAt` | server/server_main.py:893-896 | The card removed is the first one equal to the played card. |
| `Rules.Discard` | server/server_main.py:892-896 | Discarding keeps every player's validity and state. |
| `Server.GameServer.DiscardPlayed` | server/server_main.py:892-896 | The loop leaves the records equal to `Discard`. |
| `Rules.Draw` | server/server_main.py:897-899 | Defines the draw: the valid player with r valid players before it takes card r of the deck. Its own ensures only fixes the length; `DrawKeepsRoster` and `DrawDisjoint` state its properties. |
| `Rules.DrawKeepsRoster` | server/server_main.py:897-899 | Each valid player's hand grows by exactly one card; validity and state are kept. |
| `Rules.DrawnLeavesDeck` | server/server_main.py:897-899 | Any valid player (the first and the only one included) draws the card at its rank among valid players, and a distinct deck no longer holds it. |
| `Rules.DrawDisjoint` | server/server_main.py:897-899 | With a distinct deck no card is drawn by two players or left in the deck after being drawn. |
| `Server.GameServer.DrawCards` | server/server_main.py:897-899 | Each valid player, in order, takes the front card; the deck loses one card per valid player. |
| `Server.PlayerList.DrawFrom` | server/server_main.py:897-899 | The drawing loop gives `Draw` and leaves the deck without its first N cards. |
| `Machine.Replenished` | server/server_main.py:892-899 | Replenishing keeps validity, states and the valid count. |
| `Machine.RestDeck` | server/server_main.py:897-899 | The deck shrinks by one card per valid player when it can serve them all, and is unchanged otherwise. |
| `Machine.ReplenishedHand` | server/server_main.py:892-899 | A player keeps its hand size when the deck can serve everyone, and loses the played card otherwise. |
| `Server.GameServer.Replenish` | server/server_main.py:892-899 | The records and deck afterwards are `Replenished` and `RestDeck`. |
| `Server.GameServer.FirstValid` | server/server_main.py:900 | `tuple(players)[0]` is the first valid player. |
| `Machine.NextTurnRound` | server/server_main.py:891-908 | Defines SYNC_NEXT_TURN. Its ensures keeps the list's length, the storyteller and the session; `NextTurnSpec` states the rest. |
| `Machine.NextTurnSpec` | server/server_main.py:891-908 | The game ends exactly when the first valid hand is empty: then every eligible player is sent END_GAME and nobody stays valid. Otherwise every valid player is sent its hand and returns to TURN_SYNC. |
| `Machine.DealtOut` | server/server_main.py:901-904 | Defines the hand-out: every valid player is sent its hand and returns to TURN_SYNC. Its own ensures only fixes the length; `NextTurnSpec` states the outcome. |
| `Machine.EndAll` | server/server_main.py:906-908 | Defines the end of the game: nobody stays valid. Its own ensures only fixes the length; `NextTurnSpec` states the outcome. |
| `Server.GameServer.EndOrDeal` | server/server_main.py:900-908 | The end-or-continue code leaves the records equal to `DealtOut` or to `EndAll` after END_GAME. |
| `Server.GameServer.DealOut` | server/server_main.py:901-904 | The loop leaves the records equal to `DealtOut`. |
| `Server.GameServer.EndPlayers` | server/server_main.py:907-908 | The loop leaves the records equal to `EndAll`. |
| `Server.GameServer.SyncNextRound` | server/server_main.py:891-908 | The SYNC_NEXT_TURN code leaves the state equal to `NextTurnRound`. |
| `Machine.OrchestrateCoherent` | server/server_main.py:836-908 | `global_operations` keeps the protocol invariant: a listed storyteller index, and nobody past TURN_SYNC before a storyteller exists. |
| `Machine.BeginCoherent` | server/server_main.py:843-857 | After BEGIN_SYNC the protocol invariant holds, every valid player waits for READY, and the chosen storyteller is a valid listed player. |
| `Machine.JoinCoherent` | server/server_main.py:627-640 | Admitting a player keeps the protocol invariant. |
| `Machine.MessageCoherent` | server/server_main.py:268-348 | Handling a message keeps the protocol invariant. |
| `Machine.AdvanceCoherent` | server/server_main.py:739-740 | The auto-advance pass keeps the protocol invariant. |
| `Machine.SweepKeepsPreTurn` | server/server_main.py:583-596 | `check` moves nobody past TURN_SYNC. |
| `Machine.SweepCoherent` | server/server_main.py:745 | The `check` of the loop keeps the protocol invariant, with the storyteller's place recomputed after the removal. |
| `Server.CurOfRecomputed` | server/server_main.py:745 | After the list changes, the storyteller is still absent exactly when it was, and a listed one is at an index of the new list. |
| `Machine.FlushCoherent` | server/server_main.py:726-729 | The write step keeps the protocol invariant. |

## Left out

- Resource loading (`Resources`, server/server_main.py:31-62) reads files and JSON. The card-set table is an input map, `Protocol.Resources.configuration`, that may be missing.
- The HTTP resource server, `check_resource_server` and the interactive console are separate threads with no game logic.
- `GameServer.main` is the `select` loop, socket accept, shutdown and close, and session restart. Only the rules it calls are modelled, each as its own operation:
  - the write step is `Player.FlushOne`;
  - the `handle_state` pass is `Machine.AdvanceUpTo`;
  - `check` is `PlayerList.Check`;
  - `prepare` is the `GameServer` constructor.
- Locking (`Monitor`, the semaphore's `acquire` and `release`) is left out. Every operation is treated as atomic.
- The `connection` class is a socket wrapper whose code is not part of this model:
  - `conn.get()` becomes the token list passed to `handle_message`;
  - `conn.status` becomes a boolean field;
  - `conn.send` appends to the `sent` record.
- The rejected socket's shutdown and close in `accept_connection` is not modelled; sockets are plain numbers.
- Randomness: `shuffle` and `randrange` are the `Machine.Chance` parameter, constrained by `Machine.Fair`.
- Logging calls are left out.
- Wire formatting: outgoing lines are `Protocol.Msg` values, not formatted strings. Text produced by joining tokens (the clue words and the card set name) is kept as tokens.
- `Player.__hash__` is left out: players are told apart by object identity, and the vote count is a sequence indexed by list position instead of a dictionary keyed by player.
- Protocol.IsNumeric: accepts ASCII digits only, so the model treats every other token as malformed. The source differs on two kinds of token:
  - Unicode decimal digits such as fullwidth '３' or Arabic-Indic '٣': `isnumeric()` accepts them and `int()` parses them. `TURN ３ <words>` records card 3 in the source, while the model invalidates the storyteller and sends the other valid players back to TURN_SYNC. The same holds for `CARD` messages.
  - Other numerals such as '½' or '²': `isnumeric()` accepts them but `int()` raises. The exception leaves `handle_message` unhandled, while the model invalidates the sender.
- The dealing loop of `begin_game` and the drawing loop of SYNC_NEXT_TURN run inside `PlayerList`, as `DealFrom` and `DrawFrom`, instead of inline in `GameServer`. The order in which players take cards is the same.
- Server.Player.HandleMessage and the other `Player` methods that read the list take the player's list position as a ghost argument. The source finds itself by identity; `Player.ListedAt` ties the two.
- Server.GameServer.GlobalOperations: requires the protocol invariant `Machine.Coherent`. The source relies on it without checking. The lemmas `FlushCoherent`, `JoinCoherent`, `MessageCoherent`, `AdvanceCoherent`, `OrchestrateCoherent` and `SweepCoherent` show, on the `Machine.Table` record, that each step of one loop iteration keeps it. For the final step, `check`, the link back to the objects is `PlayerList.Check` (its records are `Sweep`'s) together with `Server.CurOfRecomputed`. A single object-level statement that `check` keeps `Coherent(View())` is not proved.
