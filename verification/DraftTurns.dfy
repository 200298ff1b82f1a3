/** Who is up in a draft: one captain as soon as both have arrived, the one who arrived first, and after
    each pick or pass the other. */
module DraftTurns {
  import opened Draft
  import opened DraftSafety
  import opened DraftEffects

  // ---- Arriving, picking and passing, with one captain a side ----

  function Other(k: nat, f: nat, r: nat): nat {
    if k == f then r else f
  }

  lemma {:induction false} OtherIsUp(w: World, k: nat, f: nat, r: nat)
    requires Captains(w, f, r) && k in {f, r}
    ensures TeamUp(w.slots, OtherTeam(w.slots[k].team)) <==> Up(w.slots[Other(k, f, r)])
  {
    var o := Other(k, f, r);
    assert forall i :: 0 <= i < |w.slots| ==> (Arrived(w.slots[i], OtherTeam(w.slots[k].team)) ==> i == o);
    if Up(w.slots[o]) { assert FirstArrived(w.slots, OtherTeam(w.slots[k].team), o); }
  }

  /** Main result: a captain who reaches its place on the way to the pool comes up exactly when the other
      captain is not up in play. */
  lemma {:induction false} CaptainArrives(w: World, k: nat, target: (int, int), f: nat, r: nat)
    requires Captains(w, f, r) && k in {f, r} && !w.slots[k].ignored && w.slots[k].alive
    requires w.slots[k].draft == MovingToPool && !Far(w.slots[k], target)
    ensures Animate(w, k, target).slots[k].draft == if Up(w.slots[Other(k, f, r)]) then CaptainDown else CaptainUp
  {
    var w' := AnimateExactly(w, k, target);
    OtherIsUp(w, k, f, r);
  }

  lemma {:induction false} OtherIsNext(w: World, k: nat, f: nat, r: nat)
    requires Captains(w, f, r) && k in {f, r}
    ensures forall o: int :: NextCaptain(w.slots, k, o) <==> o == Other(k, f, r) && !w.slots[Other(k, f, r)].ignored
  {
  }

  /** Main result: while the other captain is in play, a player selected from the pool by the captain who
      is up is on the way to that captain's team, and the other captain is up. */
  lemma {:induction false} CaptainPicks(w: World, k: nat, n: nat, f: nat, r: nat)
    requires Captains(w, f, r) && k in {f, r} && n < |w.slots| && !w.slots[n].captain
    requires w.slots[k].draft == CaptainUp && (w.slots[n].draft == MovingToPool || w.slots[n].draft == Pooled)
    requires !w.slots[Other(k, f, r)].ignored
    ensures var w' := Select(w, k, n);
            && w'.slots[n].draft == MovingToPick && w'.slots[n].team == w.slots[k].team
            && w'.slots[k].draft == CaptainDown && w'.slots[Other(k, f, r)].draft == CaptainUp
  {
    var w' := SelectExactly(w, k, n);
    OtherIsNext(w, k, f, r);
    assert NextCaptain(w.slots, k, Other(k, f, r));
  }

  /** Main result: a delegate's selection from the pool is its captain's while that captain is up in
      play, and otherwise changes nothing. */
  lemma {:induction false} DelegatePicks(w: World, me: nat, k: nat, n: nat, f: nat, r: nat)
    requires Captains(w, f, r) && k in {f, r} && me < |w.slots| && n < |w.slots|
    requires w.slots[me].draft == PickedSelector && w.slots[me].team == w.slots[k].team
    requires w.slots[n].draft == MovingToPool || w.slots[n].draft == Pooled
    ensures Select(w, me, n) == if Up(w.slots[k]) then Select(w, k, n) else w
  {
    var team := w.slots[k].team;
    assert forall i :: 0 <= i < |w.slots| ==> (Arrived(w.slots[i], team) ==> i == k);
    TeamToCaptainExactly(w.slots, team, 0);
    if Up(w.slots[k]) { assert Arrived(w.slots[k], team); }
  }

  // ---- Somebody is up ----

  /** A captain is down only while the other is up. */
  predicate OneUp(w: World, f: nat, r: nat)
    requires f < |w.slots| && r < |w.slots|
  {
    && (w.slots[f].draft == CaptainDown ==> w.slots[r].draft == CaptainUp)
    && (w.slots[r].draft == CaptainDown ==> w.slots[f].draft == CaptainUp)
  }

  /** What happens to the captains' states, when the captains stay in play: nothing; or the one whose turn
      it is to be animated joins, arrives, or is at home. */
  ghost predicate CaptainMoves(w: World, w': World, h: nat, f: nat, r: nat)
    requires f < |w.slots| == |w'.slots| && r < |w.slots| && f != r
  {
    forall k :: k == f || k == r ==>
      var d, d' := w.slots[k].draft, w'.slots[k].draft;
      || d' == d
      || (h == k && (d == Off || d == MovingToPool)
          && (d' == MovingToPool || d' == if w.slots[Other(k, f, r)].draft == CaptainUp then CaptainDown else CaptainUp))
      || (h == k && d == MovingToHome && d' == End)
  }

  lemma {:induction false} AnimatedEarlier(w: World, m: nat, n: nat, targets: seq<(int, int)>, f: nat, r: nat)
    requires n <= m <= |w.slots| == |targets| && AllAnimated(w, m, targets, f, r, true)
    ensures AllAnimated(w, n, targets, f, r, true)
  {
    if n < m { AnimatedEarlier(w, m - 1, n, targets, f, r); }
  }

  lemma {:induction false} NextMovesCaptain(w: World, n: nat, targets: seq<(int, int)>, w1: World, f: nat, r: nat)
      returns (w': World)
    requires n < |w.slots| == |targets| && AllAnimated(w, |targets|, targets, f, r, true) && w1 == AnimateAll(w, n, targets)
    requires f < |w1.slots| && r < |w1.slots| && f != r && OneUp(w1, f, r)
    ensures w' == Animate(w1, n, targets[n]) && |w'.slots| == |w1.slots| && w'.draft == w1.draft
    ensures CaptainMoves(w1, w', n, f, r) && OneUp(w', f, r) && StaysUp(w1, w', f, r)
  {
    AnimatedEarlier(w, |targets|, n, targets, f, r);
    var w2 := LastAnimated(w, n, targets, f, r, true);
    w' := CaptainsMove(w1, n, targets[n], f, r);
    MovesKeepUp(w1, w', n, f, r);
  }

  lemma {:induction false} CaptainsMove(w: World, h: nat, target: (int, int), f: nat, r: nat) returns (w': World)
    requires Captains(w, f, r) && h < |w.slots| && !w.slots[f].ignored && !w.slots[r].ignored
    requires CaptainMay(w.slots[f].draft) && CaptainMay(w.slots[r].draft)
    ensures w' == Animate(w, h, target) && |w'.slots| == |w.slots| && w'.draft == w.draft && CaptainMoves(w, w', h, f, r)
  {
    w' := AnimateExactly(w, h, target);
    if (h == f || h == r) && w.slots[h].alive {
      var joined := Joined(w, h, f, r);
      var moved := CaptainSettles(joined, h, target, f, r);
      assert moved == w';
    }
  }

  /** The world in which slot h, a captain in play, is moved. */
  lemma {:induction false} Joined(w: World, h: nat, f: nat, r: nat) returns (joined: World)
    requires Captains(w, f, r) && (h == f || h == r) && !w.slots[h].ignored
    ensures joined == if w.draft == MovingToPool && w.slots[h].draft == Off then AssignToPool(w, h) else w
    ensures Captains(joined, f, r) && |joined.slots| == |w.slots| && joined.draft == w.draft
    ensures joined.slots[Other(h, f, r)] == w.slots[Other(h, f, r)] && !joined.slots[h].ignored
    ensures joined.slots[h].draft == if w.draft == MovingToPool && w.slots[h].draft == Off then MovingToPool else w.slots[h].draft
  {
    joined := if w.draft == MovingToPool && w.slots[h].draft == Off then AssignToPool(w, h) else w;
  }

  lemma {:induction false} CaptainSettles(w: World, h: nat, target: (int, int), f: nat, r: nat) returns (w': World)
    requires Captains(w, f, r) && (h == f || h == r) && !w.slots[Other(h, f, r)].ignored && CaptainMay(w.slots[h].draft)
    ensures var s := w.slots[h];
            w' == if Distance(s.x, s.y, target.0, target.1) > 750
                  then Put(w, h, s.(x := Toward(s.x, target.0), y := Toward(s.y, target.1)))
                  else Arrival(Put(w, h, s.(x := target.0, y := target.1)), h)
    ensures |w'.slots| == |w.slots| && w'.slots[Other(h, f, r)] == w.slots[Other(h, f, r)]
    ensures var d, d' := w.slots[h].draft, w'.slots[h].draft;
            || d' == d
            || (d == MovingToPool && d' == if w.slots[Other(h, f, r)].draft == CaptainUp then CaptainDown else CaptainUp)
            || (d == MovingToHome && d' == End)
  {
    w' := MovesExactly(w, h, target);
    OtherIsUp(w, h, f, r);
  }

  /** The captain of slot k stays up, and who has arrived has arrived. */
  ghost predicate StaysUp(w: World, w': World, f: nat, r: nat)
    requires f < |w.slots| == |w'.slots| && r < |w.slots|
  {
    forall k :: k == f || k == r ==>
      && (w.slots[k].draft == CaptainUp ==> w'.slots[k].draft == CaptainUp)
      && (IsCaptainState(w.slots[k].draft) ==> IsCaptainState(w'.slots[k].draft))
  }

  lemma {:induction false} MovesKeepUp(w: World, w': World, h: nat, f: nat, r: nat)
    requires f < |w.slots| == |w'.slots| && r < |w.slots| && f != r && CaptainMoves(w, w', h, f, r) && OneUp(w, f, r)
    ensures OneUp(w', f, r) && StaysUp(w, w', f, r)
  {
  }

  /** The slots in order: who is up stays up, and of two captains who arrive in one update the one in the
      lower slot is up. */
  lemma {:induction false} AnimateAllKeepsUp(w: World, n: nat, targets: seq<(int, int)>, f: nat, r: nat) returns (w': World)
    requires f < |w.slots| && r < |w.slots| && f != r && OneUp(w, f, r)
    requires n <= |w.slots| == |targets| && AllAnimated(w, |targets|, targets, f, r, true)
    ensures w' == AnimateAll(w, n, targets) && w'.draft == w.draft
    ensures |w'.slots| == |w.slots| && OneUp(w', f, r) && StaysUp(w, w', f, r)
    ensures forall k :: k == f || k == r ==> k >= n ==> w'.slots[k].draft == w.slots[k].draft
    ensures LowerIsUp(w, w', f, r)
  {
    if n == 0 {
      w' := w;
    } else {
      var w1 := AnimateAllKeepsUp(w, n - 1, targets, f, r);
      w' := NextMovesCaptain(w, n - 1, targets, w1, f, r);
      UpFurther(w, w1, w', n - 1, f, r);
    }
  }

  lemma {:induction false} UpFurther(w: World, w1: World, w2: World, h: nat, f: nat, r: nat)
    requires f < |w.slots| == |w1.slots| == |w2.slots| && r < |w.slots| && f != r
    requires OneUp(w1, f, r) && StaysUp(w, w1, f, r) && LowerIsUp(w, w1, f, r)
    requires forall k :: k == f || k == r ==> k >= h ==> w1.slots[k].draft == w.slots[k].draft
    requires CaptainMoves(w1, w2, h, f, r) && StaysUp(w1, w2, f, r)
    ensures StaysUp(w, w2, f, r) && LowerIsUp(w, w2, f, r)
    ensures forall k :: k == f || k == r ==> k >= h + 1 ==> w2.slots[k].draft == w.slots[k].draft
  {
  }

  predicate LowerIsUp(w: World, w': World, f: nat, r: nat)
    requires f < |w.slots| == |w'.slots| && r < |w.slots|
  {
    !IsCaptainState(w.slots[f].draft) && !IsCaptainState(w.slots[r].draft)
    && IsCaptainState(w'.slots[f].draft) && IsCaptainState(w'.slots[r].draft) ==>
      w'.slots[if f < r then f else r].draft == CaptainUp
  }

  lemma {:induction false} UpdateKeepsUp(w: World, targets: seq<(int, int)>, f: nat, r: nat) returns (w': World)
    requires Inv(w, f, r, true) && |w.slots| == |targets| && OneUp(w, f, r)
    ensures w' == Update(w, targets) && |w'.slots| == |w.slots| && OneUp(w', f, r)
    ensures w'.draft == MovingToPool ==> StaysUp(w, w', f, r) && LowerIsUp(w, w', f, r)
  {
    AnimateAllKeeps(w, |w.slots|, targets, f, r, true);
    var moved := AnimateAllKeepsUp(w, |w.slots|, targets, f, r);
    w' := EndedExactly(moved);
  }

  // ---- Runs ----

  lemma {:induction false} PickKeepsUp(w: World, n: nat, k: nat, f: nat, r: nat)
    requires Inv(w, f, r, true) && n < |w.slots| && k < |w.slots| && w.slots[k].draft == CaptainUp && OneUp(w, f, r)
    ensures |PickAndTurn(w, n, k).slots| == |w.slots| && OneUp(PickAndTurn(w, n, k), f, r)
    ensures |Pass(w, k).slots| == |w.slots| && OneUp(Pass(w, k), f, r)
  {
    TurnFinds(w, k, f, r, true);
  }

  lemma {:induction false} SelectKeepsUp(w: World, me: nat, n: nat, f: nat, r: nat) returns (w': World)
    requires Inv(w, f, r, true) && me < |w.slots| && n < |w.slots| && OneUp(w, f, r)
    ensures w' == Select(w, me, n) && |w'.slots| == |w.slots| && OneUp(w', f, r)
  {
    w' := Select(w, me, n);
    var s := w.slots[n].draft;
    if s == MovingToPool || s == Pooled {
      PoolKeepsUp(w, me, n, f, r);
    } else if w.slots[me].draft == CaptainUp && s == CaptainDown {
      PickKeepsUp(w, n, me, f, r);
    } else {
      assert n == f || n == r ==> w' == w;
    }
  }

  lemma {:induction false} PoolKeepsUp(w: World, me: nat, n: nat, f: nat, r: nat)
    requires Inv(w, f, r, true) && me < |w.slots| && n < |w.slots| && OneUp(w, f, r)
    ensures |SelectFromPool(w, me, n).slots| == |w.slots| && OneUp(SelectFromPool(w, me, n), f, r)
  {
    if w.slots[me].draft == CaptainUp {
      PickKeepsUp(w, n, me, f, r);
    } else {
      var k := TeamToCaptain(w.slots, w.slots[me].team, 0);
      if k != -1 && w.slots[k].draft == CaptainUp { PickKeepsUp(w, n, k, f, r); }
    }
  }

  /** One event, while the captains stay in play. */
  lemma {:induction false} ApplyKeepsUp(w: World, e: Event, f: nat, r: nat) returns (w': World)
    requires Inv(w, f, r, true) && OneUp(w, f, r) && Enabled(w, e) && CaptainStays(e, f, r)
    ensures w' == Apply(w, e) && |w'.slots| == |w.slots| && OneUp(w', f, r)
    ensures !e.EvSelect? && w'.draft == MovingToPool ==> StaysUp(w, w', f, r)
  {
    w' := Apply(w, e);
    match e
    case EvUpdate(targets) => var w2 := UpdateKeepsUp(w, targets, f, r);
    case EvSelect(me, n) => var w2 := SelectKeepsUp(w, me, n, f, r);
    case _ =>
  }

  lemma {:induction false} AfterKeepsUp(w: World, events: seq<Event>, f: nat, r: nat) returns (w': World)
    requires Inv(w, f, r, true) && OneUp(w, f, r) && forall e :: e in events ==> CaptainStays(e, f, r)
    ensures w' == After(w, events) && |w'.slots| == |w.slots| && OneUp(w', f, r)
  {
    if events == [] {
      w' := w;
    } else {
      var n := |events| - 1;
      w' := AfterKeepsUp(w, events[..n], f, r);
      AfterKeeps(w, events[..n], f, r, true);
      assert events[n] in events;
      if Enabled(w', events[n]) { w' := ApplyKeepsUp(w', events[n], f, r); }
    }
  }

  /** Main result: in every run of a draft in which both captains stay in play, exactly one of them is up
      as soon as both have arrived. */
  lemma {:induction false} ExactlyOneUp(w: World, events: seq<Event>, f: nat, r: nat)
    requires Ready(w, f, r) && !w.slots[f].ignored && !w.slots[r].ignored
    requires forall e :: e in events ==> CaptainStays(e, f, r)
    ensures var slots := After(Begin(w), events).slots;
            && |slots| == |w.slots|
            && (IsCaptainState(slots[f].draft) && IsCaptainState(slots[r].draft) ==>
                  (slots[f].draft == CaptainUp) != (slots[r].draft == CaptainUp))
  {
    BeginEstablishes(w, f, r);
    BeginNobodyArrived(w, f, r);
    var w' := AfterKeepsUp(Begin(w), events, f, r);
    AfterKeeps(Begin(w), events, f, r, true);
  }

  lemma {:induction false} BeginNobodyArrived(w: World, f: nat, r: nat)
    requires Ready(w, f, r) && !w.slots[f].ignored && !w.slots[r].ignored
    ensures |Begin(w).slots| == |w.slots| && Begin(w).draft == MovingToPool
    ensures Begin(w).slots[f].draft == Begin(w).slots[r].draft == MovingToPool
  {
    var w0 := w.(draft := MovingToPool, pool := 0, home := 0, away := 0, homePasses := 0, awayPasses := 0);
    AssignAllNumbers(w0, |w.slots|);
    assert AssignedSlot(w0.slots[f], Begin(w).slots[f], true, Begin(w).pool);
    assert AssignedSlot(w0.slots[r], Begin(w).slots[r], true, Begin(w).pool);
  }

  /** Without selections, who is up stays up as long as the phase lasts. */
  lemma {:induction false} UpStays(w: World, events: seq<Event>, k: nat, f: nat, r: nat) returns (w': World)
    requires Inv(w, f, r, true) && OneUp(w, f, r) && k in {f, r}
    requires forall e :: e in events ==> CaptainStays(e, f, r) && !e.EvSelect?
    requires w.slots[k].draft == CaptainUp && After(w, events).draft == MovingToPool
    requires forall i :: 0 <= i <= |events| ==> After(w, events[..i]).draft == MovingToPool
    ensures w' == After(w, events) && |w'.slots| == |w.slots| && OneUp(w', f, r) && w'.slots[k].draft == CaptainUp
  {
    if events == [] {
      w' := w;
    } else {
      var n := |events| - 1;
      assert forall i :: 0 <= i <= n ==> events[..n][..i] == events[..i];
      assert After(w, events[..n]).draft == MovingToPool;
      w' := UpStays(w, events[..n], k, f, r);
      AfterKeeps(w, events[..n], f, r, true);
      assert events[n] in events;
      if Enabled(w', events[n]) { w' := ApplyKeepsUp(w', events[n], f, r); }
    }
  }

  /** Main result: if one captain has arrived and the other has not, the one who has is up, and without
      selections it stays up through the phase, also when the other arrives. */
  lemma {:induction false} FirstToArriveIsUp(w: World, events: seq<Event>, more: seq<Event>, k: nat, f: nat, r: nat)
    requires Ready(w, f, r) && !w.slots[f].ignored && !w.slots[r].ignored && k in {f, r}
    requires forall e :: e in events + more ==> CaptainStays(e, f, r)
    requires forall e :: e in more ==> !e.EvSelect?
    requires |After(Begin(w), events).slots| == |w.slots|
    requires var slots := After(Begin(w), events).slots;
             IsCaptainState(slots[k].draft) && !IsCaptainState(slots[Other(k, f, r)].draft)
    requires forall i :: 0 <= i <= |more| ==> After(After(Begin(w), events), more[..i]).draft == MovingToPool
    ensures var slots := After(After(Begin(w), events), more).slots;
            |slots| == |w.slots| && slots[k].draft == CaptainUp && slots[Other(k, f, r)].draft != CaptainUp
  {
    BeginEstablishes(w, f, r);
    BeginNobodyArrived(w, f, r);
    var w1 := AfterKeepsUp(Begin(w), events, f, r);
    AfterKeeps(Begin(w), events, f, r, true);
    assert more[..|more|] == more;
    var w2 := UpStays(w1, more, k, f, r);
    AfterKeeps(w1, more, f, r, true);
  }
}
