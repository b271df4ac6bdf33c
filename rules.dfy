/** The game rules applied by the round orchestrator: barrier detection, deck
    sizing and dealing, scoring, and the end-of-turn hand replenishment. */
module Rules {
  import opened Protocol
  import opened Roster

  function Min(a: int, b: int): int
  {
    if a <= b then a else b
  }

  lemma {:induction false} CountValidStep(ps: seq<PlayerData>, i: nat)
    requires i < |ps|
    ensures CountValid(ps[..i + 1]) == CountValid(ps[..i]) + (if ps[i].valid then 1 else 0)
  {
    assert ps[..i + 1][..i] == ps[..i];
  }

  /** Valid players before position j outnumber those before i by at least
      one when i < j and player i is valid: ranks of valid players are distinct. */
  lemma {:induction false} CountValidPrefix(ps: seq<PlayerData>, i: nat, j: nat)
    requires i <= j <= |ps|
    ensures CountValid(ps[..i]) <= CountValid(ps[..j])
    ensures i < j && ps[i].valid ==> CountValid(ps[..i]) < CountValid(ps[..j])
    decreases j - i
  {
    if i < j {
      CountValidPrefix(ps, i + 1, j);
      CountValidStep(ps, i);
    }
  }

  lemma CountValidWhole(ps: seq<PlayerData>)
    ensures CountValid(ps[..|ps|]) == CountValid(ps)
  {
    assert ps[..|ps|] == ps;
  }

  /** Rosters whose players agree on validity have as many valid players. */
  lemma {:induction false} SameValidity(a: seq<PlayerData>, b: seq<PlayerData>)
    requires |a| == |b| && forall i :: 0 <= i < |a| ==> a[i].valid == b[i].valid
    ensures CountValid(a) == CountValid(b)
    decreases |a|
  {
    if a != [] {
      SameValidity(a[..|a| - 1], b[..|b| - 1]);
    }
  }

  // ---------------------------------------------------------------------------
  // get_sync_state

  /** The state every valid player shares, if there is at least one valid
      player and they all agree; None otherwise. */
  function SyncState(ps: seq<PlayerData>): Option<PState>
  {
    var vi := ValidIndices(ps);
    if vi == [] then None
    else if forall i :: 0 <= i < |ps| && ps[i].valid ==> ps[i].state == ps[vi[0]].state
    then Some(ps[vi[0]].state)
    else None
  }

  /** The session is synchronised on s exactly when the roster has a valid
      player and every valid player is in state s. */
  lemma SyncStateSpec(ps: seq<PlayerData>, s: PState)
    ensures SyncState(ps) == Some(s) <==>
      CountValid(ps) > 0 && forall i :: 0 <= i < |ps| && ps[i].valid ==> ps[i].state == s
  {
    CountValidZero(ps);
    var vi := ValidIndices(ps);
    if CountValid(ps) > 0 {
      assert ps[vi[0]].valid;
    }
  }

  // ---------------------------------------------------------------------------
  // begin_game: deck sizing and dealing

  /** Number of cards of a card set; 50 when the set or the configuration is missing. */
  function CardCount(res: Resources, cardSet: string): (n: nat)
    ensures res.configuration.Some? && cardSet in res.configuration.value ==> n == res.configuration.value[cardSet]
    ensures res.configuration.None? || cardSet !in res.configuration.value ==> n == 50
  {
    match res.configuration
    case Some(conf) => if cardSet in conf then conf[cardSet] else 50
    case None => 50
  }

  /** Cards withheld for 4, 5 and 6 players. */
  function Offset(players: nat): nat
  {
    if players == 4 then 2 else if players == 5 then 23 else if players == 6 then 26 else 0
  }

  /** Length of Python's slice a[:e] of a list of length len (a negative e counts from the end). */
  function SliceLen(len: nat, e: int): nat
  {
    if e >= 0 then Min(e, len) else if len + e >= 0 then len + e else 0
  }

  /** The deck after the player-count-dependent truncation `cards[:len(cards) - offset]`. */
  function Truncate(deck: seq<int>, players: nat): seq<int>
  {
    if 4 <= players <= 6 then deck[..SliceLen(|deck|, |deck| - Offset(players))] else deck
  }

  /** The truncation keeps a prefix of the shuffled deck, withholding exactly
      Offset(players) cards when the deck has that many. */
  lemma TruncateSize(deck: seq<int>, players: nat)
    ensures Truncate(deck, players) <= deck
    ensures |deck| >= Offset(players) ==> |Truncate(deck, players)| == |deck| - Offset(players)
    ensures players !in {4, 5, 6} ==> Truncate(deck, players) == deck
  {
  }

  /** A 50-card set leaves 48, 27, 24 and 50 usable cards for 4, 5, 6 and 7 players. */
  lemma FiftyCardDeck(deck: seq<int>)
    requires |deck| == 50
    ensures |Truncate(deck, 4)| == 48 && |Truncate(deck, 5)| == 27
    ensures |Truncate(deck, 6)| == 24 && |Truncate(deck, 7)| == 50
  {
  }

  /** A card set smaller than the offset is cut by Python's negative-index
      slicing: 5 players with a 20-card set keep 17 cards, not none. */
  lemma ShortDeckSlice(deck: seq<int>)
    requires |deck| == 20
    ensures |Truncate(deck, 5)| == 17
  {
  }

  predicate Distinct(s: seq<int>)
  {
    forall i, j :: 0 <= i < j < |s| ==> s[i] != s[j]
  }

  /** The deck shuffle(list(range(n))) may produce: each of 0..n-1 exactly once. */
  predicate IsShuffle(deck: seq<int>, n: nat)
  {
    |deck| == n && Distinct(deck) && forall i :: 0 <= i < |deck| ==> 0 <= deck[i] < n
  }

  /** The cards dealt to the valid player of rank r: the next k from the front. */
  function Portion(deck: seq<int>, r: nat, k: nat): seq<int>
  {
    deck[Min(k * r, |deck|)..Min(k * r + k, |deck|)]
  }

  /** One dealing step: with the deck consumed up to the r-th portion, the
      next six cards (or what is left) are portion r and the rest starts at
      portion r + 1. */
  lemma PortionStep(deck: seq<int>, r: nat, rest: seq<int>)
    requires rest == deck[Min(6 * r, |deck|)..]
    ensures rest[..Min(6, |rest|)] == Portion(deck, r, 6)
    ensures rest[Min(6, |rest|)..] == deck[Min(6 * (r + 1), |deck|)..]
  {
    var a := Min(6 * r, |deck|);
    assert a + Min(6, |rest|) == Min(6 * r + 6, |deck|);
  }

  /** Hands after dealing: the valid player with r valid players before it
      receives the cards at positions 6r .. 6r+5 of the deck (fewer if the deck runs out). */
  function DealHands(ps: seq<PlayerData>, deck: seq<int>): (r: seq<PlayerData>)
    ensures |r| == |ps|
  {
    seq(|ps|, i requires 0 <= i < |ps| =>
      if ps[i].valid then ps[i].(cards := Portion(deck, CountValid(ps[..i]), 6)) else ps[i])
  }

  /** Overwriting position i of a spliced sequence moves the splice point. */
  lemma SpliceStep<T>(a: seq<T>, b: seq<T>, i: nat)
    requires |a| == |b| && i < |a|
    ensures (a[..i] + b[i..])[i := a[i]] == a[..i + 1] + b[i + 1..]
  {
  }

  /** One dealing step: with the hands dealt before position i (`cur`) and
      the deck consumed by them (`rest` is what is left), a valid player at i
      takes the next six cards of what is left. */
  lemma DealAdvance(ps: seq<PlayerData>, deck: seq<int>, i: nat, rest: seq<int>, cur: seq<PlayerData>)
    requires i < |ps| && rest == deck[Min(6 * CountValid(ps[..i]), |deck|)..]
    requires cur == DealHands(ps, deck)[..i] + ps[i..]
    ensures cur[i] == ps[i]
    ensures ps[i].valid ==>
      && rest[Min(6, |rest|)..] == deck[Min(6 * CountValid(ps[..i + 1]), |deck|)..]
      && cur[i := cur[i].(cards := rest[..Min(6, |rest|)])] == DealHands(ps, deck)[..i + 1] + ps[i + 1..]
    ensures !ps[i].valid ==>
      rest == deck[Min(6 * CountValid(ps[..i + 1]), |deck|)..] && cur == DealHands(ps, deck)[..i + 1] + ps[i + 1..]
  {
    CountValidStep(ps, i);
    PortionStep(deck, CountValid(ps[..i]), rest);
    SpliceStep(DealHands(ps, deck), ps, i);
  }

  /** What is left of the deck after dealing. */
  function DealRest(ps: seq<PlayerData>, deck: seq<int>): seq<int>
  {
    deck[Min(6 * CountValid(ps), |deck|)..]
  }

  /** Two non-overlapping stretches of a deck without duplicates share no card. */
  lemma SlicesDisjoint(deck: seq<int>, x1: nat, y1: nat, x2: nat, y2: nat, c: int)
    requires Distinct(deck) && x1 <= y1 <= x2 <= y2 <= |deck|
    ensures c in deck[x1..y1] ==> c !in deck[x2..y2]
  {
    if c in deck[x1..y1] {
      var a :| x1 <= a < y1 && deck[a] == c;
      forall b | x2 <= b < y2
        ensures deck[b] != c
      {
        assert a < b;
      }
    }
  }

  /** A card dealt from a distinct deck to any valid player, the first and
      the only one included, no longer is in what stays in the deck. */
  lemma DealLeavesDeck(ps: seq<PlayerData>, deck: seq<int>, i: nat, c: int)
    requires Distinct(deck) && i < |ps| && ps[i].valid
    ensures c in DealHands(ps, deck)[i].cards ==> c !in DealRest(ps, deck)
  {
    var ri := CountValid(ps[..i]);
    CountValidPrefix(ps, i, |ps|);
    CountValidWhole(ps);
    var L := |deck|;
    SlicesDisjoint(deck, Min(6 * ri, L), Min(6 * ri + 6, L), Min(6 * CountValid(ps), L), L, c);
  }

  /** Cards from a distinct deck are dealt without duplicates: the hands of
      two valid players are disjoint (and, by DealLeavesDeck, each is
      disjoint from what stays in the deck). */
  lemma DealDisjoint(ps: seq<PlayerData>, deck: seq<int>, i: nat, j: nat, c: int)
    requires Distinct(deck) && i < j < |ps| && ps[i].valid && ps[j].valid
    ensures c in DealHands(ps, deck)[i].cards ==> c !in DealHands(ps, deck)[j].cards
    ensures c in DealHands(ps, deck)[j].cards ==> c !in DealRest(ps, deck)
  {
    var ri, rj := CountValid(ps[..i]), CountValid(ps[..j]);
    CountValidPrefix(ps, i, j);
    var L := |deck|;
    SlicesDisjoint(deck, Min(6 * ri, L), Min(6 * ri + 6, L), Min(6 * rj, L), Min(6 * rj + 6, L), c);
    DealLeavesDeck(ps, deck, j, c);
  }

  /** A deck of at least 6 cards per valid player fills every hand. */
  lemma DealFullHands(ps: seq<PlayerData>, deck: seq<int>, i: nat)
    requires i < |ps| && ps[i].valid && |deck| >= 6 * CountValid(ps)
    ensures |DealHands(ps, deck)[i].cards| == 6
  {
    CountValidPrefix(ps, i, |ps|);
    CountValidWhole(ps);
  }

  /** With five players and 27 usable cards, the fifth valid player gets only 3 cards. */
  lemma DealShortHand(ps: seq<PlayerData>, deck: seq<int>, i: nat)
    requires i < |ps| && ps[i].valid && CountValid(ps[..i]) == 4 && |deck| == 27
    ensures |DealHands(ps, deck)[i].cards| == 3
  {
  }

  // ---------------------------------------------------------------------------
  // calculate_result: scoring

  /** Votes among the first m players for `card`: valid players other than the
      storyteller whose selected card equals it. */
  function VotesBelow(ps: seq<PlayerData>, card: Option<int>, st: nat, m: nat): nat
    requires m <= |ps|
  {
    if m == 0 then 0
    else
      var vote := if ps[m - 1].valid && m - 1 != st && ps[m - 1].selectedCard == card then 1 else 0;
      VotesBelow(ps, card, st, m - 1) + vote
  }

  /** result[i]: how many non-storytellers voted for player i's card. */
  function Fooled(ps: seq<PlayerData>, i: nat, st: nat): nat
    requires i < |ps|
  {
    VotesBelow(ps, ps[i].currentCard, st, |ps|)
  }

  /** Valid non-storytellers among the first m players. */
  function VotersBelow(ps: seq<PlayerData>, st: nat, m: nat): nat
    requires m <= |ps|
  {
    if m == 0 then 0 else VotersBelow(ps, st, m - 1) + (if ps[m - 1].valid && m - 1 != st then 1 else 0)
  }

  lemma {:induction false} VotersCount(ps: seq<PlayerData>, st: nat, m: nat)
    requires m <= |ps| && st < |ps|
    ensures VotersBelow(ps, st, m) + (if st < m && ps[st].valid then 1 else 0) == CountValid(ps[..m])
  {
    if m > 0 {
      VotersCount(ps, st, m - 1);
      CountValidStep(ps, m - 1);
    }
  }

  lemma {:induction false} VotesBelowBound(ps: seq<PlayerData>, card: Option<int>, st: nat, m: nat)
    requires m <= |ps|
    ensures VotesBelow(ps, card, st, m) <= VotersBelow(ps, st, m)
    ensures VotesBelow(ps, card, st, m) == VotersBelow(ps, st, m) <==>
      forall j :: 0 <= j < m && ps[j].valid && j != st ==> ps[j].selectedCard == card
  {
    if m > 0 {
      VotesBelowBound(ps, card, st, m - 1);
    }
  }

  /** The storyteller's count equals N - 1 exactly when every other valid
      player voted for the storyteller's card. */
  lemma AllCorrectMeans(ps: seq<PlayerData>, st: nat)
    requires st < |ps| && ps[st].valid
    ensures Fooled(ps, st, st) <= CountValid(ps) - 1
    ensures Fooled(ps, st, st) == CountValid(ps) - 1 <==>
      forall j :: 0 <= j < |ps| && ps[j].valid && j != st ==> ps[j].selectedCard == ps[st].currentCard
  {
    VotesBelowBound(ps, ps[st].currentCard, st, |ps|);
    VotersCount(ps, st, |ps|);
    CountValidWhole(ps);
  }

  /** Points player i earns this round. */
  function Gain(ps: seq<PlayerData>, i: nat, st: nat): nat
    requires i < |ps| && st < |ps|
  {
    var correct := Fooled(ps, st, st);
    if correct == CountValid(ps) - 1 then
      (if i == st then 0 else 3)
    else
      (if correct != 0 && (i == st || ps[i].selectedCard == ps[st].currentCard) then 3 else 0)
      + Fooled(ps, i, st)
  }

  /** Scores after a round in which player st told the story. */
  function Scored(ps: seq<PlayerData>, st: nat): (r: seq<PlayerData>)
    requires st < |ps|
    ensures |r| == |ps|
  {
    seq(|ps|, i requires 0 <= i < |ps| =>
      if ps[i].valid then ps[i].(score := ps[i].score + Gain(ps, i, st)) else ps[i])
  }

  /** Scores raised by bonus[i] for every valid player i. */
  function Raised(ps: seq<PlayerData>, bonus: seq<int>): (r: seq<PlayerData>)
    requires |bonus| == |ps|
    ensures |r| == |ps|
  {
    seq(|ps|, i requires 0 <= i < |ps| =>
      if ps[i].valid then ps[i].(score := ps[i].score + bonus[i]) else ps[i])
  }

  /** 3 points for every player but the storyteller. */
  function ForOthers(n: nat, st: nat): (b: seq<int>)
    ensures |b| == n
  {
    seq(n, i => if i != st then 3 else 0)
  }

  /** 3 points for every player but the storyteller that voted for `card`. */
  function ForGuessers(ps: seq<PlayerData>, st: nat, card: Option<int>): (b: seq<int>)
    ensures |b| == |ps|
  {
    seq(|ps|, i requires 0 <= i < |ps| => if i != st && ps[i].selectedCard == card then 3 else 0)
  }

  /** The reward when somebody, but not everybody, found the storyteller's
      card: 3 for each other player that voted for it, and 3 for the storyteller. */
  function Rewarded(ps: seq<PlayerData>, st: nat): (r: seq<PlayerData>)
    requires st < |ps|
    ensures |r| == |ps|
  {
    var v := Raised(ps, ForGuessers(ps, st, ps[st].currentCard));
    v[st := v[st].(score := v[st].score + 3)]
  }

  /** calculate_result's steps add up to the per-player gain: when everyone
      found the storyteller's card, 3 for every other player; otherwise, if
      somebody found it, 3 for each correct voter and for the storyteller,
      and then every player's vote count `result`. */
  lemma {:induction false} ScoredInSteps(ps: seq<PlayerData>, st: nat, result: seq<int>)
    requires st < |ps| && ps[st].valid && |result| == |ps|
    requires forall i :: 0 <= i < |ps| && ps[i].valid ==> result[i] == Fooled(ps, i, st)
    ensures result[st] == CountValid(ps) - 1 ==> Scored(ps, st) == Raised(ps, ForOthers(|ps|, st))
    ensures result[st] != CountValid(ps) - 1 ==>
      var mid := if result[st] != 0 then Rewarded(ps, st) else ps;
      Scored(ps, st) == Raised(mid, result)
  {
    var sc := Scored(ps, st);
    if result[st] == CountValid(ps) - 1 {
      var r := Raised(ps, ForOthers(|ps|, st));
      forall i | 0 <= i < |ps|
        ensures sc[i] == r[i]
      {
      }
    } else {
      var mid := if result[st] != 0 then Rewarded(ps, st) else ps;
      var r := Raised(mid, result);
      forall i | 0 <= i < |ps|
        ensures sc[i] == r[i]
      {
      }
    }
  }

  /** Everyone found the storyteller's card: each other valid player gains 3,
      the storyteller nothing, and no per-vote bonus is paid. */
  lemma ScoreAllCorrect(ps: seq<PlayerData>, st: nat)
    requires st < |ps| && ps[st].valid
    requires forall j :: 0 <= j < |ps| && ps[j].valid && j != st ==> ps[j].selectedCard == ps[st].currentCard
    ensures forall i :: 0 <= i < |ps| && ps[i].valid ==>
      Scored(ps, st)[i].score == ps[i].score + (if i == st then 0 else 3)
  {
    AllCorrectMeans(ps, st);
  }

  /** Somebody missed the storyteller's card: if at least one guessed it, the
      storyteller and every correct voter gain 3; on top of that every valid
      player gains one point per non-storyteller vote for its card. */
  lemma ScoreNotAllCorrect(ps: seq<PlayerData>, st: nat)
    requires st < |ps| && ps[st].valid
    requires exists j :: 0 <= j < |ps| && ps[j].valid && j != st && ps[j].selectedCard != ps[st].currentCard
    ensures forall i :: 0 <= i < |ps| && ps[i].valid ==>
      Scored(ps, st)[i].score == ps[i].score + Fooled(ps, i, st) +
        (if Fooled(ps, st, st) > 0 && (i == st || ps[i].selectedCard == ps[st].currentCard) then 3 else 0)
  {
    AllCorrectMeans(ps, st);
  }

  /** Nobody found the storyteller's card: the storyteller gains nothing. */
  lemma ScoreNobodyCorrect(ps: seq<PlayerData>, st: nat)
    requires st < |ps| && ps[st].valid && CountValid(ps) > 1
    requires forall j :: 0 <= j < |ps| && ps[j].valid && j != st ==> ps[j].selectedCard != ps[st].currentCard
    ensures Scored(ps, st)[st].score == ps[st].score
  {
    VotesBelowZero(ps, ps[st].currentCard, st, |ps|);
  }

  lemma {:induction false} VotesBelowZero(ps: seq<PlayerData>, card: Option<int>, st: nat, m: nat)
    requires m <= |ps|
    requires forall j :: 0 <= j < m && ps[j].valid && j != st ==> ps[j].selectedCard != card
    ensures VotesBelow(ps, card, st, m) == 0
  {
    if m > 0 {
      VotesBelowZero(ps, card, st, m - 1);
    }
  }

  /** Scores never decrease, and only valid players' records change, in their score only. */
  lemma ScoresMonotone(ps: seq<PlayerData>, st: nat)
    requires st < |ps|
    ensures forall i :: 0 <= i < |ps| ==>
      Scored(ps, st)[i].score >= ps[i].score && Scored(ps, st)[i] == ps[i].(score := Scored(ps, st)[i].score)
  {
  }

  // ---------------------------------------------------------------------------
  // SYNC_NEXT_TURN: discarding the played card and drawing a new one

  /** Remove the first occurrence of the played card from a hand. */
  function RemoveFirst(hand: seq<int>, c: Option<int>): (r: seq<int>)
    ensures c.Some? && c.value in hand ==>
      |r| == |hand| - 1 && multiset(r) == multiset(hand) - multiset{c.value}
    ensures c.None? || c.value !in hand ==> r == hand
  {
    if hand == [] then []
    else
      assert hand == [hand[0]] + hand[1..];
      if Some(hand[0]) == c then hand[1..]
      else [hand[0]] + RemoveFirst(hand[1..], c)
  }

  /** A hand whose first card is not the played one keeps that card in front. */
  lemma RemoveFirstCons(hand: seq<int>, c: Option<int>)
    requires |hand| > 0 && Some(hand[0]) != c
    ensures RemoveFirst(hand, c) == [hand[0]] + RemoveFirst(hand[1..], c)
  {
  }

  /** Cutting position j out of a hand is cutting position j - 1 out of its tail. */
  lemma CutTail(hand: seq<int>, j: nat)
    requires 0 < j < |hand|
    ensures hand[..j] + hand[j + 1..] == [hand[0]] + (hand[1..][..j - 1] + hand[1..][j..])
  {
  }

  /** The card removed is the first one equal to the played card. */
  lemma {:induction false} RemoveFirstAt(hand: seq<int>, c: Option<int>, j: nat)
    requires j < |hand| && Some(hand[j]) == c
    requires forall m :: 0 <= m < j ==> Some(hand[m]) != c
    ensures RemoveFirst(hand, c) == hand[..j] + hand[j + 1..]
    decreases j
  {
    if j == 0 {
      assert hand[..0] + hand[1..] == hand[1..];
    } else {
      var tail := hand[1..];
      forall m | 0 <= m < j - 1
        ensures Some(tail[m]) != c
      {
        assert tail[m] == hand[m + 1];
      }
      RemoveFirstAt(tail, c, j - 1);
      RemoveFirstCons(hand, c);
      CutTail(hand, j);
    }
  }

  /** Every valid player discards the card it played this turn. */
  function Discard(ps: seq<PlayerData>): (r: seq<PlayerData>)
    ensures |r| == |ps| && CountValid(r) == CountValid(ps)
    ensures forall i :: 0 <= i < |ps| ==> r[i].valid == ps[i].valid && r[i].state == ps[i].state
  {
    var r := seq(|ps|, i requires 0 <= i < |ps| =>
      if ps[i].valid then ps[i].(cards := RemoveFirst(ps[i].cards, ps[i].currentCard)) else ps[i]);
    SameValidity(ps, r);
    r
  }

  /** Every valid player, in roster order, takes the next card from the front of the deck. */
  function Draw(ps: seq<PlayerData>, deck: seq<int>): (r: seq<PlayerData>)
    requires |deck| >= CountValid(ps)
    ensures |r| == |ps|
  {
    seq(|ps|, i requires 0 <= i < |ps| =>
      if ps[i].valid then
        (CountValidPrefix(ps, i, |ps|); CountValidWhole(ps);
         ps[i].(cards := ps[i].cards + [deck[CountValid(ps[..i])]]))
      else ps[i])
  }

  /** One drawing step: with the hands drawn before position i (`cur`) and
      the deck consumed by them (`rest` is what is left), a valid player at i
      takes the front card of what is left. */
  lemma DrawAdvance(ps: seq<PlayerData>, deck: seq<int>, i: nat, rest: seq<int>, cur: seq<PlayerData>)
    requires |deck| >= CountValid(ps) && i < |ps|
    requires CountValid(ps[..i]) <= |deck| && rest == deck[CountValid(ps[..i])..]
    requires cur == Draw(ps, deck)[..i] + ps[i..]
    ensures CountValid(ps[..i + 1]) <= |deck| && cur[i] == ps[i]
    ensures ps[i].valid ==>
      && |rest| > 0 && rest[1..] == deck[CountValid(ps[..i + 1])..]
      && cur[i := cur[i].(cards := cur[i].cards + [rest[0]])] == Draw(ps, deck)[..i + 1] + ps[i + 1..]
    ensures !ps[i].valid ==>
      rest == deck[CountValid(ps[..i + 1])..] && cur == Draw(ps, deck)[..i + 1] + ps[i + 1..]
  {
    CountValidStep(ps, i);
    CountValidPrefix(ps, i + 1, |ps|);
    CountValidWhole(ps);
    SpliceStep(Draw(ps, deck), ps, i);
  }

  /** Drawing changes hands only: each valid player's hand grows by one card. */
  lemma DrawKeepsRoster(ps: seq<PlayerData>, deck: seq<int>)
    requires |deck| >= CountValid(ps)
    ensures var r := Draw(ps, deck);
      && CountValid(r) == CountValid(ps)
      && (forall i :: 0 <= i < |ps| ==> r[i].valid == ps[i].valid && r[i].state == ps[i].state)
      && (forall i :: 0 <= i < |ps| && ps[i].valid ==> |r[i].cards| == |ps[i].cards| + 1)
  {
    SameValidity(ps, Draw(ps, deck));
  }

  /** The card any valid player draws, the first and the only one included,
      is the card at its rank, and a distinct deck no longer holds it. */
  lemma DrawnLeavesDeck(ps: seq<PlayerData>, deck: seq<int>, i: nat)
    requires |deck| >= CountValid(ps) && Distinct(deck)
    requires i < |ps| && ps[i].valid
    ensures CountValid(ps[..i]) < CountValid(ps)
    ensures Draw(ps, deck)[i].cards == ps[i].cards + [deck[CountValid(ps[..i])]]
    ensures Draw(ps, deck)[i].cards[|ps[i].cards|] !in deck[CountValid(ps)..]
  {
    CountValidPrefix(ps, i, |ps|);
    CountValidWhole(ps);
    var ri := CountValid(ps[..i]);
    assert Draw(ps, deck)[i].cards == ps[i].cards + [deck[ri]];
    SlicesDisjoint(deck, ri, ri + 1, CountValid(ps), |deck|, deck[ri]);
    assert deck[ri] in deck[ri..ri + 1];
  }

  /** Each valid player's new card is its own: draws from a distinct deck never
      hand one card to two players, nor leave it in the deck. */
  lemma DrawDisjoint(ps: seq<PlayerData>, deck: seq<int>, i: nat, j: nat)
    requires |deck| >= CountValid(ps) && Distinct(deck)
    requires i < j < |ps| && ps[i].valid && ps[j].valid
    ensures Draw(ps, deck)[i].cards[|ps[i].cards|] != Draw(ps, deck)[j].cards[|ps[j].cards|]
    ensures Draw(ps, deck)[j].cards[|ps[j].cards|] !in deck[CountValid(ps)..]
  {
    CountValidPrefix(ps, i, j);
    DrawnLeavesDeck(ps, deck, i);
    DrawnLeavesDeck(ps, deck, j);
    var ri, rj := CountValid(ps[..i]), CountValid(ps[..j]);
    assert Draw(ps, deck)[i].cards[|ps[i].cards|] == deck[ri];
    assert Draw(ps, deck)[j].cards[|ps[j].cards|] == deck[rj];
  }
}
