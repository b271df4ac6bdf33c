/** The PlayerList as a value: an ordered sequence of player records in join
    order.  These functions specify what the PlayerList methods do to the
    records of its players. */
module Roster {
  import opened Protocol

  /** len(PlayerList): iteration yields valid players only. */
  function CountValid(ps: seq<PlayerData>): nat
    decreases |ps|
  {
    if ps == [] then 0 else CountValid(ps[..|ps| - 1]) + (if ps[|ps| - 1].valid then 1 else 0)
  }

  /** Indices of the valid players, in list order: what iteration visits. */
  function ValidIndices(ps: seq<PlayerData>): (r: seq<nat>)
    ensures |r| == CountValid(ps)
    ensures forall k :: 0 <= k < |r| ==> r[k] < |ps| && ps[r[k]].valid
    ensures forall i :: 0 <= i < |ps| && ps[i].valid ==> i in r
    ensures forall k, l :: 0 <= k < l < |r| ==> r[k] < r[l]
    decreases |ps|
  {
    if ps == [] then []
    else ValidIndices(ps[..|ps| - 1]) + (if ps[|ps| - 1].valid then [|ps| - 1] else [])
  }

  lemma {:induction false} CountValidZero(ps: seq<PlayerData>)
    ensures CountValid(ps) == 0 <==> forall i :: 0 <= i < |ps| ==> !ps[i].valid
  {
    var r := ValidIndices(ps);
    if CountValid(ps) == 0 {
      assert |r| == 0;
    } else {
      assert ps[r[0]].valid;
    }
  }

  /** The first valid player is the first one iteration visits. */
  lemma FirstValidIndex(ps: seq<PlayerData>, i: nat)
    requires i < |ps| && ps[i].valid && forall m :: 0 <= m < i ==> !ps[m].valid
    ensures CountValid(ps) > 0 && ValidIndices(ps)[0] == i
  {
    var vi := ValidIndices(ps);
    assert i in vi;
    var k :| 0 <= k < |vi| && vi[k] == i;
    assert ps[vi[0]].valid && vi[0] <= vi[k];
  }

  /** Whether a player receives broadcasts: valid and past the handshake. */
  predicate Eligible(d: PlayerData)
  {
    d.valid && d.getBroadcast
  }

  /** The "#PLAYER_LIST" template: number and name of every eligible player, in order. */
  function Digest(ps: seq<PlayerData>): seq<(int, string)>
    decreases |ps|
  {
    if ps == [] then []
    else
      var last := ps[|ps| - 1];
      Digest(ps[..|ps| - 1]) + (if Eligible(last) then [(last.number, last.name)] else [])
  }

  lemma {:induction false} DigestMembers(ps: seq<PlayerData>, e: (int, string))
    ensures e in Digest(ps) <==>
      exists i :: 0 <= i < |ps| && Eligible(ps[i]) && e == (ps[i].number, ps[i].name)
    decreases |ps|
  {
    if ps != [] {
      var init := ps[..|ps| - 1];
      DigestMembers(init, e);
      if e in Digest(init) {
        var i :| 0 <= i < |init| && Eligible(init[i]) && e == (init[i].number, init[i].name);
        assert ps[i] == init[i];
      }
      if exists i :: 0 <= i < |ps| && Eligible(ps[i]) && e == (ps[i].number, ps[i].name) {
        var i :| 0 <= i < |ps| && Eligible(ps[i]) && e == (ps[i].number, ps[i].name);
        if i < |init| {
          assert init[i] == ps[i];
        }
      }
    }
  }

  /** broadcast: every eligible player queues the message; nobody else changes. */
  function BroadcastTo(ps: seq<PlayerData>, m: Msg): (r: seq<PlayerData>)
    ensures |r| == |ps|
    ensures forall i :: 0 <= i < |ps| ==>
      Outbox(r[i]) == Outbox(ps[i]) + (if Eligible(ps[i]) then [m] else [])
    ensures forall i :: 0 <= i < |ps| ==> SameButQueue(ps[i], r[i]) && r[i].sent == ps[i].sent
    ensures forall i :: 0 <= i < |ps| && FlagOk(ps[i]) ==> FlagOk(r[i])
  {
    seq(|ps|, i requires 0 <= i < |ps| => if Eligible(ps[i]) then Send(ps[i], m) else ps[i])
  }

  /** `for player in plist: player.state = st`: every valid player moves to st. */
  function SetStates(ps: seq<PlayerData>, st: PState): (r: seq<PlayerData>)
    ensures |r| == |ps|
    ensures forall i :: 0 <= i < |ps| ==> r[i].state == (if ps[i].valid then st else ps[i].state)
    ensures forall i :: 0 <= i < |ps| ==> r[i] == ps[i].(state := r[i].state)
  {
    seq(|ps|, i requires 0 <= i < |ps| => if ps[i].valid then ps[i].(state := st) else ps[i])
  }

  /** Message templates understood by broadcast. */
  datatype Outgoing = ListTemplate | SelfTemplate | Plain(msg: Msg)

  /** The message broadcast actually sends for a template; `info` is the
      number of the player a "#SELF" notice is about. */
  function Expand(ps: seq<PlayerData>, data: Outgoing, info: int): Msg
  {
    match data
    case ListTemplate => PlayerListMsg(Digest(ps))
    case SelfTemplate => PlayerMsg(info)
    case Plain(m) => m
  }

  // ---------------------------------------------------------------------------
  // next_player: circular successor search

  /** The list index probed at step k (1 <= k <= n) of a search starting after `from`. */
  function ProbeAt(from: nat, k: nat, n: nat): (j: nat)
    requires from < n && 1 <= k <= n
    ensures j < n
  {
    if from + k < n then from + k else from + k - n
  }

  /** The first valid player among probes k, k+1, ..., n. */
  function ProbeFrom(ps: seq<PlayerData>, from: nat, k: nat): (r: Option<nat>)
    requires from < |ps| && 1 <= k
    ensures r.Some? ==> r.value < |ps| && ps[r.value].valid
    decreases |ps| + 1 - k
  {
    if k > |ps| then None
    else if ps[ProbeAt(from, k, |ps|)].valid then Some(ProbeAt(from, k, |ps|))
    else ProbeFrom(ps, from, k + 1)
  }

  /** The player that next_player returns: the first valid player strictly
      after index `from`, wrapping around (it is `from` itself only when
      nobody else is valid), or None when no player is valid. */
  function Successor(ps: seq<PlayerData>, from: nat): (r: Option<nat>)
    requires |ps| > 0 ==> from < |ps|
    ensures r.Some? ==> r.value < |ps| && ps[r.value].valid
  {
    if |ps| == 0 then None else ProbeFrom(ps, from, 1)
  }

  /** How many probes it takes to reach index j when starting after `from`. */
  function Distance(from: nat, j: nat, n: nat): (k: nat)
    requires from < n && j < n
    ensures 1 <= k <= n && ProbeAt(from, k, n) == j
  {
    if j > from then j - from else j + n - from
  }

  lemma {:induction false} ProbeFromSpec(ps: seq<PlayerData>, from: nat, k: nat)
    requires from < |ps| && 1 <= k
    ensures ProbeFrom(ps, from, k).Some? ==>
      var j := ProbeFrom(ps, from, k).value;
      j < |ps| && ps[j].valid && k <= Distance(from, j, |ps|) &&
      forall m :: 0 <= m < |ps| && k <= Distance(from, m, |ps|) < Distance(from, j, |ps|) ==> !ps[m].valid
    ensures ProbeFrom(ps, from, k).None? ==>
      forall m :: 0 <= m < |ps| && k <= Distance(from, m, |ps|) ==> !ps[m].valid
    decreases |ps| + 1 - k
  {
    var n := |ps|;
    if k <= n {
      ProbeFromSpec(ps, from, k + 1);
      var here := ProbeAt(from, k, n);
      assert Distance(from, here, n) == k by {
        if from + k < n { } else { }
      }
      forall m | 0 <= m < n && Distance(from, m, n) == k
        ensures m == here
      {
      }
    }
  }

  /** The successor is valid, and every player strictly between the start and
      the successor (circularly) is invalid. */
  lemma SuccessorIsNextValid(ps: seq<PlayerData>, from: nat)
    requires from < |ps|
    ensures Successor(ps, from).Some? ==>
      var j := Successor(ps, from).value;
      j < |ps| && ps[j].valid &&
      forall m :: 0 <= m < |ps| && Distance(from, m, |ps|) < Distance(from, j, |ps|) ==> !ps[m].valid
  {
    ProbeFromSpec(ps, from, 1);
  }

  /** next_player finds nobody exactly when nobody is valid. */
  lemma SuccessorNoneIffNoValid(ps: seq<PlayerData>, from: nat)
    requires |ps| > 0 ==> from < |ps|
    ensures Successor(ps, from).None? <==> CountValid(ps) == 0
  {
    CountValidZero(ps);
    if |ps| > 0 {
      ProbeFromSpec(ps, from, 1);
      if Successor(ps, from).None? {
        forall m | 0 <= m < |ps| ensures !ps[m].valid {
          assert 1 <= Distance(from, m, |ps|);
        }
      }
    }
  }

  // ---------------------------------------------------------------------------
  // check: the dead-player sweep

  /** Index of the first player, from `i` on, whose verify() fails. */
  function FirstDeadFrom(ps: seq<PlayerData>, i: nat): (r: Option<nat>)
    ensures r.Some? ==> i <= r.value < |ps| && !Verify(ps[r.value])
    ensures r.Some? ==> forall m :: i <= m < r.value ==> Verify(ps[m])
    ensures r.None? ==> forall m :: i <= m < |ps| ==> Verify(ps[m])
    decreases |ps| - i
  {
    if i >= |ps| then None
    else if !Verify(ps[i]) then Some(i)
    else FirstDeadFrom(ps, i + 1)
  }

  function FirstDead(ps: seq<PlayerData>): Option<nat>
  {
    FirstDeadFrom(ps, 0)
  }

  /** What one sweep leaves: the roster, the phase, and the removed player. */
  datatype Swept = Swept(ps: seq<PlayerData>, phase: Phase, removed: Option<PlayerData>)

  /** check: the first player failing verify() gets its queue flushed, is
      stopped and leaves the list; losing the master while players are still
      connecting is an error; the remaining eligible players get a fresh
      player list while connecting. */
  function Sweep(ps: seq<PlayerData>, phase: Phase): Swept
  {
    match FirstDead(ps)
    case None => Swept(ps, phase, None)
    case Some(i) =>
      var phase' := if ps[i].status == MasterRole && phase == PlayerConn then Error else phase;
      var rest := ps[..i] + ps[i + 1..];
      var rest' := if phase' == PlayerConn then BroadcastTo(rest, PlayerListMsg(Digest(rest))) else rest;
      Swept(rest', phase', Some(Stopped(Pushed(ps[i]))))
  }

  function Numbers(ps: seq<PlayerData>): (r: seq<int>)
    ensures |r| == |ps| && forall i :: 0 <= i < |ps| ==> r[i] == ps[i].number
  {
    seq(|ps|, i requires 0 <= i < |ps| => ps[i].number)
  }

  /** A sweep removes at most one player, never one for which verify() holds,
      keeps the others in their order, and flushes the removed player's queue
      before closing it. */
  lemma SweepRemovesFirstDead(ps: seq<PlayerData>, phase: Phase)
    ensures var s := Sweep(ps, phase);
      match FirstDead(ps)
      case None => s == Swept(ps, phase, None)
      case Some(i) =>
        !Verify(ps[i]) && (forall m :: 0 <= m < i ==> Verify(ps[m])) &&
        Numbers(s.ps) == Numbers(ps)[..i] + Numbers(ps)[i + 1..] &&
        s.removed == Some(Stopped(Pushed(ps[i]))) &&
        s.removed.value.sent == ps[i].sent + ps[i].buffer && !s.removed.value.valid
  {
    match FirstDead(ps)
    case None =>
    case Some(i) =>
      var s := Sweep(ps, phase);
      var rest := ps[..i] + ps[i + 1..];
      assert Numbers(s.ps) == Numbers(rest);
      assert Numbers(rest) == Numbers(ps)[..i] + Numbers(ps)[i + 1..];
  }

  /** The master leaving during the connection phase puts the server in ERROR;
      any other removal leaves the phase alone. */
  lemma SweepPhase(ps: seq<PlayerData>, phase: Phase)
    ensures Sweep(ps, phase).phase ==
      if FirstDead(ps).Some? && ps[FirstDead(ps).value].status == MasterRole && phase == PlayerConn
      then Error else phase
  {
  }

  /** Sweeping a roster in which every player passes verify() changes nothing. */
  lemma SweepAllAlive(ps: seq<PlayerData>, phase: Phase)
    requires forall i :: 0 <= i < |ps| ==> Verify(ps[i])
    ensures Sweep(ps, phase) == Swept(ps, phase, None)
  {
    assert FirstDeadFrom(ps, 0).None?;
  }

  /** One sweep removes one dead player only: with two players failing
      verify(), the list after the sweep is one shorter and still holds a
      player failing verify(), which the next sweep removes. */
  lemma SweepOneAtATime(ps: seq<PlayerData>, phase: Phase, a: nat, b: nat)
    requires a < b < |ps| && !Verify(ps[a]) && !Verify(ps[b])
    ensures |Sweep(ps, phase).ps| == |ps| - 1
    ensures FirstDead(Sweep(ps, phase).ps).Some?
  {
    assert FirstDeadFrom(ps, 0).Some?;
    var i := FirstDead(ps).value;
    var rest := ps[..i] + ps[i + 1..];
    var k: nat := (if i == a then b else a) - 1;
    assert rest[k] == ps[k + 1];
    var s := Sweep(ps, phase).ps;
    assert !Verify(s[k]);
  }
}
