/** What updates and selections do in a draft, slot by slot. */
module DraftEffects {
  import opened Draft

  // ---- Captains ----

  /** A captain of `team` in play who has arrived. */
  predicate Arrived(s: Slot, team: int) {
    !s.ignored && s.captain && s.team == team && (s.draft == CaptainUp || s.draft == CaptainDown)
  }

  /** Slot k holds the first of them. */
  ghost predicate FirstArrived(slots: seq<Slot>, team: int, k: int) {
    0 <= k < |slots| && Arrived(slots[k], team) && forall i :: 0 <= i < k ==> !Arrived(slots[i], team)
  }

  /** The captain of `team` is up. */
  ghost predicate TeamUp(slots: seq<Slot>, team: int) {
    exists k :: FirstArrived(slots, team, k) && slots[k].draft == CaptainUp
  }

  lemma {:induction false} TeamToCaptainExactly(slots: seq<Slot>, team: int, h: nat)
    requires h <= |slots| && forall i :: 0 <= i < h ==> !Arrived(slots[i], team)
    ensures var k := TeamToCaptain(slots, team, h);
            && (k != -1 ==> FirstArrived(slots, team, k))
            && (k == -1 ==> forall i :: 0 <= i < |slots| ==> !Arrived(slots[i], team))
    decreases |slots| - h
  {
    if h < |slots| && !Arrived(slots[h], team) { TeamToCaptainExactly(slots, team, h + 1); }
  }

  function OtherTeam(team: int): int {
    if team == 2 then 1 else 2
  }

  lemma {:induction false} TeamUpExactly(slots: seq<Slot>, team: int)
    ensures var k := TeamToCaptain(slots, team, 0);
            TeamUp(slots, team) <==> k != -1 && slots[k].draft == CaptainUp
  {
    TeamToCaptainExactly(slots, team, 0);
  }

  // ---- One slot in one update ----

  /** A step of a tenth of the way, cut off toward zero. */
  predicate Steps(x: int, t: int, x': int) {
    if x >= t then 10 * (x - x') <= x - t < 10 * (x - x') + 10 else 10 * (x - x') - 10 < x - t <= 10 * (x - x')
  }

  /** Far from the target, in both axes together. */
  predicate Far(s: Slot, target: (int, int)) {
    (if s.x < target.0 then target.0 - s.x else s.x - target.0) + (if s.y < target.1 then target.1 - s.y else s.y - target.1) > 750
  }

  /** The state of a slot that has reached its place: a captain on the way to the pool comes up unless
      the other team's captain is up; players are pooled, or picked; at home it is over. */
  ghost predicate Settles(slots: seq<Slot>, s: Slot, d: State) {
    if s.captain && (s.draft == MovingToPool || s.draft == Pooled || s.draft == Picked) then
      d == if TeamUp(slots, OtherTeam(s.team)) then CaptainDown else CaptainUp
    else if s.draft == MovingToPool then d == Pooled
    else if s.draft == MovingToPick then d == Picked
    else if s.draft == MovingToHome then d == End
    else d == s.draft
  }

  /** A slot that is new to the draft: a player gets the next pool number and leaves its team. */
  ghost predicate Joins(w: World, w': World, h: nat)
    requires h < |w.slots|
  {
    var s := w.slots[h];
    if s.captain then w' == w.(slots := w.slots[h := s.(draft := MovingToPool, pick := 0)])
    else w' == w.(pool := w.pool + 1, slots := w.slots[h := s.(draft := MovingToPool, pick := 0, pool := w.pool, team := 0)])
  }

  /** A slot is moved toward its place, or is there. */
  ghost predicate Moves(w: World, w': World, h: nat, target: (int, int))
    requires h < |w.slots|
  {
    && |w'.slots| == |w.slots| && w' == w.(slots := w.slots[h := w'.slots[h]])
    && var s, s' := w.slots[h], w'.slots[h];
       && s' == s.(x := s'.x, y := s'.y, draft := s'.draft)
       && if Far(s, target) then Steps(s.x, target.0, s'.x) && Steps(s.y, target.1, s'.y) && s'.draft == s.draft
          else s'.x == target.0 && s'.y == target.1 && Settles(w.slots, s, s'.draft)
  }

  /** Slot h in one update. */
  ghost predicate SlotTurn(w: World, w': World, h: nat, target: (int, int))
    requires h < |w.slots|
  {
    if w.slots[h].ignored || !w.slots[h].alive then w' == w
    else if w.draft == MovingToPool && w.slots[h].draft == Off then
      exists joined: World :: Joins(w, joined, h) && |joined.slots| == |w.slots| && Moves(joined, w', h, target)
    else Moves(w, w', h, target)
  }

  lemma {:induction false} TenthSteps(x: int, t: int)
    ensures Steps(x, t, Toward(x, t))
  {
  }

  lemma {:induction false} ArrivalExactly(w: World, h: nat) returns (w': World)
    requires h < |w.slots|
    ensures w' == Arrival(w, h) && |w'.slots| == |w.slots|
    ensures w' == w.(slots := w.slots[h := w.slots[h].(draft := w'.slots[h].draft)])
    ensures Settles(w.slots, w.slots[h], w'.slots[h].draft)
  {
    w' := Arrival(w, h);
    TeamUpExactly(w.slots, OtherTeam(w.slots[h].team));
    assert w.slots[h := w.slots[h]] == w.slots;
  }

  /** What is decided about the captains does not depend on where this slot is. */
  lemma {:induction false} PlaceIrrelevant(slots: seq<Slot>, h: nat, x: int, y: int, team: int)
    requires h < |slots|
    ensures TeamUp(slots[h := slots[h].(x := x, y := y)], team) <==> TeamUp(slots, team)
  {
    var slots' := slots[h := slots[h].(x := x, y := y)];
    forall k ensures FirstArrived(slots', team, k) <==> FirstArrived(slots, team, k) {
      assert forall i :: 0 <= i < |slots| ==> Arrived(slots'[i], team) == Arrived(slots[i], team);
    }
  }

  lemma {:induction false} MovesExactly(w: World, h: nat, target: (int, int)) returns (w': World)
    requires h < |w.slots|
    ensures var s := w.slots[h];
            w' == if Distance(s.x, s.y, target.0, target.1) > 750
                  then Put(w, h, s.(x := Toward(s.x, target.0), y := Toward(s.y, target.1)))
                  else Arrival(Put(w, h, s.(x := target.0, y := target.1)), h)
    ensures Moves(w, w', h, target)
  {
    var s := w.slots[h];
    if Distance(s.x, s.y, target.0, target.1) > 750 {
      w' := Put(w, h, s.(x := Toward(s.x, target.0), y := Toward(s.y, target.1)));
      TenthSteps(s.x, target.0);
      TenthSteps(s.y, target.1);
    } else {
      w' := ArrivalExactly(Put(w, h, s.(x := target.0, y := target.1)), h);
      PlaceIrrelevant(w.slots, h, target.0, target.1, OtherTeam(s.team));
    }
  }

  lemma {:induction false} AnimateExactly(w: World, h: nat, target: (int, int)) returns (w': World)
    requires h < |w.slots|
    ensures w' == Animate(w, h, target) && |w'.slots| == |w.slots| && SlotTurn(w, w', h, target)
  {
    if w.slots[h].ignored || !w.slots[h].alive {
      w' := w;
    } else if w.draft == MovingToPool && w.slots[h].draft == Off {
      var joined := AssignToPool(w, h);
      w' := MovesExactly(joined, h, target);
      assert Joins(w, joined, h);
    } else {
      w' := MovesExactly(w, h, target);
    }
  }

  // ---- A whole update ----

  /** The first n slots in order. */
  ghost predicate SlotTurns(w: World, w': World, n: nat, targets: seq<(int, int)>)
    requires n <= |w.slots| == |targets|
    decreases n
  {
    if n == 0 then w' == w
    else exists before: World ::
      SlotTurns(w, before, n - 1, targets) && |before.slots| == |w.slots| && SlotTurn(before, w', n - 1, targets[n - 1])
  }

  lemma {:induction false} AnimateAllExactly(w: World, n: nat, targets: seq<(int, int)>) returns (w': World)
    requires n <= |w.slots| == |targets|
    ensures w' == AnimateAll(w, n, targets) && |w'.slots| == |w.slots| && SlotTurns(w, w', n, targets)
  {
    if n == 0 {
      w' := w;
    } else {
      var before := AnimateAllExactly(w, n - 1, targets);
      w' := AnimateExactly(before, n - 1, targets[n - 1]);
    }
  }

  /** Somebody in play is still in the pool or on the way into it or out of it. */
  ghost predicate PoolBusy(w: World) {
    exists h :: 0 <= h < |w.slots| && !w.slots[h].ignored && w.slots[h].draft in {MovingToPool, Pooled, MovingToPick}
  }

  ghost predicate HomeBusy(w: World) {
    exists h :: 0 <= h < |w.slots| && !w.slots[h].ignored && w.slots[h].draft == MovingToHome
  }

  /** A phase that is over: everybody in play goes home, or the draft ends. */
  ghost predicate PhaseEnds(w: World, w': World) {
    if w.draft == MovingToPool && !PoolBusy(w) then
      && |w'.slots| == |w.slots| && w' == w.(draft := MovingToHome, slots := w'.slots)
      && forall h :: 0 <= h < |w.slots| ==>
           w'.slots[h] == if w.slots[h].ignored then w.slots[h] else w.slots[h].(draft := MovingToHome)
    else if w.draft == MovingToHome && !HomeBusy(w) then
      && |w'.slots| == |w.slots| && w' == w.(draft := Off, slots := w'.slots)
      && forall h :: 0 <= h < |w.slots| ==> w'.slots[h] == w.slots[h].(draft := Off)
    else w' == w
  }

  lemma {:induction false} EndedExactly(w: World) returns (w': World)
    ensures w' == Ended(w) && PhaseEnds(w, w')
  {
    w' := Ended(w);
    assert PoolEmpty(w.slots) <==> !PoolBusy(w);
    assert AllHome(w.slots) <==> !HomeBusy(w);
  }

  /** An update: every slot's turn, then the end of a phase that is over. */
  ghost predicate UpdateTurn(w: World, w': World, targets: seq<(int, int)>)
    requires |w.slots| == |targets|
  {
    exists moved: World :: SlotTurns(w, moved, |w.slots|, targets) && PhaseEnds(moved, w')
  }

  /** Main result: what one update does. */
  lemma {:induction false} UpdateExactly(w: World, targets: seq<(int, int)>) returns (w': World)
    requires |w.slots| == |targets|
    ensures w' == Update(w, targets) && UpdateTurn(w, w', targets)
  {
    var moved := AnimateAllExactly(w, |w.slots|, targets);
    w' := EndedExactly(moved);
  }

  // ---- Selecting ----

  /** Slot o holds the first captain in play other than k. */
  ghost predicate NextCaptain(slots: seq<Slot>, k: nat, o: int) {
    && 0 <= o < |slots| && o != k && !slots[o].ignored && slots[o].captain
    && forall i :: 0 <= i < o && i != k ==> slots[i].ignored || !slots[i].captain
  }

  lemma {:induction false} OtherCaptainExactly(slots: seq<Slot>, k: nat, h: nat)
    requires h <= |slots| && forall i :: 0 <= i < h && i != k ==> slots[i].ignored || !slots[i].captain
    ensures var o := OtherCaptain(slots, k, h);
            && (o != -1 ==> NextCaptain(slots, k, o))
            && (o == -1 ==> forall i :: 0 <= i < |slots| && i != k ==> slots[i].ignored || !slots[i].captain)
    decreases |slots| - h
  {
    if h < |slots| && !(h != k && !slots[h].ignored && slots[h].captain) { OtherCaptainExactly(slots, k, h + 1); }
  }

  ghost predicate HasNext(slots: seq<Slot>, k: nat) {
    exists o :: NextCaptain(slots, k, o)
  }

  /** Captain k picks player n: the player is on the way on the captain's team, with the next pick number
      of that team, the other captain is up, and k is down.  Captains cannot be picked, and without another
      captain in play nothing happens. */
  ghost predicate Picks(w: World, w': World, n: nat, k: nat)
    requires n < |w.slots| && k < |w.slots|
  {
    if w.slots[n].captain || !HasNext(w.slots, k) then w' == w
    else
      && |w'.slots| == |w.slots|
      && (forall o :: NextCaptain(w.slots, k, o) ==>
            forall h :: 0 <= h < |w.slots| ==>
              w'.slots[h] == if h == n then w.slots[n].(team := w.slots[k].team, draft := MovingToPick, pick := w'.slots[n].pick)
                             else if h == k then w.slots[k].(draft := CaptainDown)
                             else if h == o then w.slots[o].(draft := CaptainUp) else w.slots[h])
      && (w.slots[k].team == 1 ==> w'.slots[n].pick == w.home && w' == w.(slots := w'.slots, home := w.home + 1))
      && (w.slots[k].team == 2 ==> w'.slots[n].pick == w.away && w' == w.(slots := w'.slots, away := w.away + 1))
      && (w.slots[k].team != 1 && w.slots[k].team != 2 ==> w'.slots[n].pick == w.slots[n].pick && w' == w.(slots := w'.slots))
  }

  /** Captain k passes: the other captain is up, if there is one in play, and a pass is counted. */
  ghost predicate Passes(w: World, w': World, k: nat)
    requires k < |w.slots|
  {
    if !HasNext(w.slots, k) then w' == w
    else
      && |w'.slots| == |w.slots|
      && (forall o :: NextCaptain(w.slots, k, o) ==>
            forall h :: 0 <= h < |w.slots| ==>
              w'.slots[h] == if h == k then w.slots[k].(draft := CaptainDown)
                             else if h == o then w.slots[o].(draft := CaptainUp) else w.slots[h])
      && w' == if w.slots[k].team == 1 then w.(slots := w'.slots, homePasses := w.homePasses + 1)
               else w.(slots := w'.slots, awayPasses := w.awayPasses + 1)
  }

  /** Player me fingers slot n.  A pooled player is picked by the captain who is up, or for it by a
      delegate of the same team; a captain passes by fingering the one who is down; an arrived captain
      makes a picked player of its own team a delegate, or takes that back.  Nothing else counts. */
  ghost predicate SelectTurn(w: World, w': World, me: nat, n: nat)
    requires me < |w.slots| && n < |w.slots|
  {
    var my, s := w.slots[me], w.slots[n];
    if s.draft == MovingToPool || s.draft == Pooled then
      if my.draft == CaptainUp then Picks(w, w', n, me)
      else if my.draft == PickedSelector && TeamUp(w.slots, my.team) then
        forall k: nat :: FirstArrived(w.slots, my.team, k) ==> Picks(w, w', n, k)
      else w' == w
    else if s.draft == CaptainDown && my.draft == CaptainUp then Passes(w, w', me)
    else if (my.draft == CaptainUp || my.draft == CaptainDown) && s.team == my.team
            && s.draft in {MovingToPick, Picked, PickedSelector} then
      w' == w.(slots := w.slots[n := s.(draft := if s.draft == PickedSelector then Picked else PickedSelector)])
    else w' == w
  }

  lemma {:induction false} PickAndTurnExactly(w: World, n: nat, k: nat) returns (w': World)
    requires n < |w.slots| && k < |w.slots| && w.slots[k].draft == CaptainUp && n != k
    ensures w' == PickAndTurn(w, n, k) && Picks(w, w', n, k)
  {
    w' := PickAndTurn(w, n, k);
    OtherCaptainExactly(w.slots, k, 0);
    var o := OtherCaptain(w.slots, k, 0);
    if o != -1 { assert NextCaptain(w.slots, k, o); }
  }

  lemma {:induction false} PassExactly(w: World, k: nat) returns (w': World)
    requires k < |w.slots|
    ensures w' == Pass(w, k) && Passes(w, w', k)
  {
    w' := Pass(w, k);
    OtherCaptainExactly(w.slots, k, 0);
    var o := OtherCaptain(w.slots, k, 0);
    if o != -1 { assert NextCaptain(w.slots, k, o); }
  }

  /** Main result: what a selection does. */
  lemma {:induction false} SelectExactly(w: World, me: nat, n: nat) returns (w': World)
    requires me < |w.slots| && n < |w.slots|
    ensures w' == Select(w, me, n) && SelectTurn(w, w', me, n)
  {
    w' := Select(w, me, n);
    var my, s := w.slots[me], w.slots[n];
    if s.draft == MovingToPool || s.draft == Pooled {
      if my.draft == CaptainUp {
        var picked := PickAndTurnExactly(w, n, me);
      } else if my.draft == PickedSelector {
        TeamToCaptainExactly(w.slots, my.team, 0);
        TeamUpExactly(w.slots, my.team);
        var k := TeamToCaptain(w.slots, my.team, 0);
        if k != -1 && w.slots[k].draft == CaptainUp { var picked := PickAndTurnExactly(w, n, k); }
      }
    } else if s.draft == CaptainDown && my.draft == CaptainUp {
      var passed := PassExactly(w, me);
    }
  }

  // ---- Beginning ----

  /** The players in play below slot h who are no captains. */
  ghost function PlayersBelow(slots: seq<Slot>, h: nat): set<int>
    requires h <= |slots|
  {
    set i | 0 <= i < h && !slots[i].ignored && !slots[i].captain
  }

  lemma {:induction false} BelowNext(slots: seq<Slot>, h: nat)
    requires h < |slots|
    ensures |PlayersBelow(slots, h + 1)| == |PlayersBelow(slots, h)| + if !slots[h].ignored && !slots[h].captain then 1 else 0
  {
    var less := PlayersBelow(slots, h);
    assert h !in less;
    assert PlayersBelow(slots, h + 1) == if !slots[h].ignored && !slots[h].captain then less + {h} else less;
  }

  /** Everybody in play starts for the pool; players leave their teams and are numbered in slot order. */
  ghost predicate Numbered(slots: seq<Slot>, slots': seq<Slot>, n: nat)
    requires n <= |slots|
  {
    && |slots'| == |slots|
    && forall h :: 0 <= h < |slots| ==>
         slots'[h] == if h >= n || slots[h].ignored then slots[h]
                      else if slots[h].captain then slots[h].(draft := MovingToPool, pick := 0)
                      else slots[h].(draft := MovingToPool, pick := 0, pool := |PlayersBelow(slots, h)|, team := 0)
  }

  lemma {:induction false} AssignAllExactly(w: World, n: nat) returns (w': World)
    requires n <= |w.slots| && w.pool == 0
    ensures w' == AssignAll(w, n) && Numbered(w.slots, w'.slots, n)
    ensures w' == w.(slots := w'.slots, pool := |PlayersBelow(w.slots, n)|)
  {
    if n == 0 {
      w' := w;
      assert PlayersBelow(w.slots, 0) == {};
    } else {
      var w1 := AssignAllExactly(w, n - 1);
      BelowNext(w.slots, n - 1);
      w' := AssignAll(w, n);
    }
  }

  /** Main result: how a draft begins. */
  lemma {:induction false} BeginExactly(w: World) returns (w': World)
    ensures w' == Begin(w) && Numbered(w.slots, w'.slots, |w.slots|)
    ensures w' == World(w'.slots, MovingToPool, |PlayersBelow(w.slots, |w.slots|)|, 0, 0, 0, 0)
  {
    w' := AssignAllExactly(w.(draft := MovingToPool, pool := 0, home := 0, away := 0, homePasses := 0, awayPasses := 0), |w.slots|);
  }
}
