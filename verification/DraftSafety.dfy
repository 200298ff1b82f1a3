/** What every run of the draft keeps: one captain up at a time, distinct pool and pick
    numbers, alternating turns; and that moving ships arrive. */
module DraftSafety {
  import opened Draft

  /** One fixed captain per side; either may be out of play. */
  ghost predicate Captains(w: World, f: nat, r: nat) {
    && f < |w.slots| && r < |w.slots| && f != r
    && (forall h :: 0 <= h < |w.slots| ==> (w.slots[h].captain <==> h == f || h == r))
    && w.slots[f].team == FED && w.slots[r].team == ROM
  }

  /** The states a captain can be in. */
  predicate CaptainMay(d: State) {
    d == Off || d == MovingToPool || IsCaptainState(d) || d == MovingToHome || d == End
  }

  /** In play, with the right to pick. */
  predicate Up(s: Slot) {
    !s.ignored && s.draft == CaptainUp
  }

  ghost predicate Roles(w: World, f: nat, r: nat)
    requires Captains(w, f, r)
  {
    && (forall h :: 0 <= h < |w.slots| && !w.slots[h].captain ==> !IsCaptainState(w.slots[h].draft))
    && CaptainMay(w.slots[f].draft) && CaptainMay(w.slots[r].draft)
    && !(Up(w.slots[f]) && Up(w.slots[r]))
  }

  predicate HasPool(s: Slot) {
    !s.captain && (s.draft == MovingToPool || s.draft == Pooled)
  }

  predicate HasPick(s: Slot) {
    s.draft == MovingToPick || s.draft == Picked || s.draft == PickedSelector
  }

  function PickCounter(w: World, team: int): int {
    if team == FED then w.home else w.away
  }

  /** Numbers in use are below their counters and distinct. */
  ghost predicate Numbers(w: World) {
    && (forall i :: 0 <= i < |w.slots| && HasPool(w.slots[i]) ==> 0 <= w.slots[i].pool < w.pool)
    && (forall i, j {:trigger HasPool(w.slots[i]), HasPool(w.slots[j])} ::
          0 <= i < j < |w.slots| && HasPool(w.slots[i]) && HasPool(w.slots[j]) ==>
          w.slots[i].pool != w.slots[j].pool)
    && (forall i :: 0 <= i < |w.slots| && HasPick(w.slots[i]) ==>
          w.slots[i].team in {FED, ROM} && 0 <= w.slots[i].pick < PickCounter(w, w.slots[i].team))
    && (forall i, j {:trigger HasPick(w.slots[i]), HasPick(w.slots[j])} ::
          0 <= i < j < |w.slots| && HasPick(w.slots[i]) && HasPick(w.slots[j]) ==>
          w.slots[i].team != w.slots[j].team || w.slots[i].pick != w.slots[j].pick)
  }

  /** Turns taken by the home captain minus turns taken by the away captain. */
  function Lead(w: World): int {
    (w.home + w.homePasses) - (w.away + w.awayPasses)
  }

  /** A captain in play, whose state fits the state of the draft. */
  predicate Playing(w: World, s: Slot) {
    !s.ignored && (s.draft == Off || if w.draft == MovingToPool then s.draft == MovingToPool || IsCaptainState(s.draft)
                                     else s.draft == MovingToHome || s.draft == End)
  }

  /** Both captains are in play; whoever is up has had as many turns as the other, or one fewer. */
  ghost predicate Turns(w: World, f: nat, r: nat)
    requires Captains(w, f, r)
  {
    var up, down := w.slots[f].draft == CaptainUp, w.slots[r].draft == CaptainUp;
    && Playing(w, w.slots[f]) && Playing(w, w.slots[r])
    && -1 <= Lead(w) <= 1
    && (up ==> Lead(w) <= 0)
    && (down ==> Lead(w) >= 0)
    && (!up && !down && w.draft == MovingToPool ==> Lead(w) == 0)
  }

  /** The invariant; the turn count is part of it in runs where the captains stay in play. */
  ghost predicate Inv(w: World, f: nat, r: nat, turns: bool) {
    Captains(w, f, r) && Roles(w, f, r) && Numbers(w) && (turns ==> Turns(w, f, r))
  }

  // ---- Finding captains ----

  lemma {:induction false} FindCaptain(w: World, f: nat, r: nat, team: int, h: nat)
    requires Captains(w, f, r) && h <= |w.slots|
    ensures var k := if team == FED then f else r;
            && (team in {FED, ROM} && h <= k ==>
                  TeamToCaptain(w.slots, team, h) ==
                  if !w.slots[k].ignored && IsCaptainState(w.slots[k].draft) then k else -1)
            && (TeamToCaptain(w.slots, team, h) != -1 ==> TeamToCaptain(w.slots, team, h) in {f as int, r as int})
            && (team in {FED, ROM} && h > k ==> TeamToCaptain(w.slots, team, h) == -1)
    decreases |w.slots| - h
  {
    if h < |w.slots| { FindCaptain(w, f, r, team, h + 1); }
  }

  lemma {:induction false} FindOther(w: World, f: nat, r: nat, k: nat, h: nat)
    requires Captains(w, f, r) && h <= |w.slots| && (k == f || k == r)
    ensures var o := if k == f then r else f;
            OtherCaptain(w.slots, k, h) == if h <= o && !w.slots[o].ignored then o else -1
    decreases |w.slots| - h
  {
    if h < |w.slots| { FindOther(w, f, r, k, h + 1); }
  }

  // ---- Changing one slot ----

  /** A slot may become `s` when it takes no new number and breaks no rule about captains. */
  ghost predicate Allowed(w: World, j: nat, s: Slot, f: nat, r: nat)
    requires Captains(w, f, r) && j < |w.slots|
  {
    var was := w.slots[j];
    && s.captain == was.captain
    && (s.captain ==> s.team == was.team && CaptainMay(s.draft))
    && (!s.captain ==> !IsCaptainState(s.draft))
    && (HasPool(s) ==> HasPool(was) && s.pool == was.pool)
    && (HasPick(s) ==> HasPick(was) && s.pick == was.pick && s.team == was.team)
  }

  lemma {:induction false} PutKeepsNumbers(w: World, j: nat, s: Slot)
    requires Numbers(w) && j < |w.slots|
    requires HasPool(s) ==> HasPool(w.slots[j]) && s.pool == w.slots[j].pool
    requires HasPick(s) ==> HasPick(w.slots[j]) && s.pick == w.slots[j].pick && s.team == w.slots[j].team
    ensures Numbers(Put(w, j, s))
  {
  }

  /** Any change of a slot that leaves the captains' rights to pick as they are. */
  lemma {:induction false} PutKeeps(w: World, j: nat, s: Slot, f: nat, r: nat, turns: bool)
    requires Inv(w, f, r, turns) && j < |w.slots| && Allowed(w, j, s, f, r)
    requires (j == f || j == r) && turns ==> Playing(w, s) && (s.draft == CaptainUp) == (w.slots[j].draft == CaptainUp)
    requires Up(s) ==> Up(w.slots[j])
    ensures Inv(Put(w, j, s), f, r, turns)
  {
    PutKeepsNumbers(w, j, s);
  }

  /** A captain gets the right to pick, which nobody had. */
  lemma {:induction false} RaiseKeeps(w: World, k: nat, f: nat, r: nat, turns: bool)
    requires Inv(w, f, r, turns) && k in {f, r} && (turns ==> w.draft == MovingToPool)
    requires !Up(w.slots[if k == f then r else f]) && !(turns && Up(w.slots[k]))
    ensures Inv(SetDraft(w, k, CaptainUp), f, r, turns)
  {
    PutKeepsNumbers(w, k, w.slots[k].(draft := CaptainUp));
  }

  // ---- Steps of an update ----

  lemma {:induction false} AssignKeepsNumbers(w: World, j: nat)
    requires Numbers(w) && j < |w.slots|
    ensures Numbers(AssignToPool(w, j))
  {
  }

  lemma {:induction false} AssignKeeps(w: World, j: nat, f: nat, r: nat, turns: bool)
    requires Inv(w, f, r, turns) && j < |w.slots| && w.draft == MovingToPool && w.slots[j].draft == Off
    ensures Inv(AssignToPool(w, j), f, r, turns)
  {
    AssignKeepsNumbers(w, j);
  }

  lemma {:induction false} ArrivalCaptainKeeps(w: World, k: nat, f: nat, r: nat, turns: bool)
    requires Inv(w, f, r, turns) && k in {f, r} && w.slots[k].draft == MovingToPool
    ensures Inv(ArrivalCaptain(w, k), f, r, turns)
  {
    var o := if k == f then r else f;
    FindCaptain(w, f, r, if k == f then ROM else FED, 0);
    if Up(w.slots[o]) {
      PutKeeps(w, k, w.slots[k].(draft := CaptainDown), f, r, turns);
    } else {
      RaiseKeeps(w, k, f, r, turns);
    }
  }

  lemma {:induction false} ArrivalKeeps(w: World, j: nat, f: nat, r: nat, turns: bool)
    requires Inv(w, f, r, turns) && j < |w.slots|
    ensures Inv(Arrival(w, j), f, r, turns)
  {
    var s := w.slots[j];
    if s.captain && s.draft == MovingToPool {
      ArrivalCaptainKeeps(w, j, f, r, turns);
    } else if s.draft == MovingToPool {
      PutKeeps(w, j, s.(draft := Pooled), f, r, turns);
    } else if s.draft == MovingToPick {
      PutKeeps(w, j, s.(draft := Picked), f, r, turns);
    } else if s.draft == MovingToHome {
      PutKeeps(w, j, s.(draft := End), f, r, turns);
    }
  }

  lemma {:induction false} MoveKeeps(w: World, j: nat, x: int, y: int, f: nat, r: nat, turns: bool)
    requires Inv(w, f, r, turns) && j < |w.slots|
    ensures Inv(Put(w, j, w.slots[j].(x := x, y := y)), f, r, turns)
  {
    PutKeeps(w, j, w.slots[j].(x := x, y := y), f, r, turns);
  }

  lemma {:induction false} AnimateKeeps(w: World, h: nat, target: (int, int), f: nat, r: nat, turns: bool)
    requires Inv(w, f, r, turns) && h < |w.slots|
    ensures Inv(Animate(w, h, target), f, r, turns)
  {
    if !w.slots[h].ignored && w.slots[h].alive {
      var w1 := if w.draft == MovingToPool && w.slots[h].draft == Off then AssignToPool(w, h) else w;
      if w.draft == MovingToPool && w.slots[h].draft == Off { AssignKeeps(w, h, f, r, turns); }
      var s := w1.slots[h];
      if Distance(s.x, s.y, target.0, target.1) > 750 {
        MoveKeeps(w1, h, Toward(s.x, target.0), Toward(s.y, target.1), f, r, turns);
      } else {
        MoveKeeps(w1, h, target.0, target.1, f, r, turns);
        ArrivalKeeps(Put(w1, h, s.(x := target.0, y := target.1)), h, f, r, turns);
      }
    }
  }

  lemma {:induction false} OneAnimated(w: World, h: nat, target: (int, int), f: nat, r: nat, turns: bool) returns (w': World)
    requires Inv(w, f, r, turns) && h < |w.slots|
    ensures w' == Animate(w, h, target) && Inv(w', f, r, turns)
  {
    w' := Animate(w, h, target);
    AnimateKeeps(w, h, target, f, r, turns);
  }

  /** Slots animated one after the other, each step keeping the invariant. */
  ghost predicate AllAnimated(w: World, n: nat, targets: seq<(int, int)>, f: nat, r: nat, turns: bool)
    requires n <= |w.slots| == |targets|
  {
    Inv(AnimateAll(w, n, targets), f, r, turns) && (n > 0 ==> AllAnimated(w, n - 1, targets, f, r, turns))
  }

  lemma {:induction false} AnimateAllKeeps(w: World, n: nat, targets: seq<(int, int)>, f: nat, r: nat, turns: bool)
    requires Inv(w, f, r, turns) && n <= |w.slots| == |targets|
    ensures AllAnimated(w, n, targets, f, r, turns)
  {
    if n > 0 {
      AnimateAllKeeps(w, n - 1, targets, f, r, turns);
      var w1 := LastAnimated(w, n - 1, targets, f, r, turns);
      var w2 := OneAnimated(w1, n - 1, targets[n - 1], f, r, turns);
      AnimatedNext(w, n, targets, w2, f, r, turns);
    }
  }

  lemma {:induction false} LastAnimated(w: World, n: nat, targets: seq<(int, int)>, f: nat, r: nat, turns: bool)
      returns (w': World)
    requires n <= |w.slots| == |targets| && AllAnimated(w, n, targets, f, r, turns)
    ensures w' == AnimateAll(w, n, targets) && Inv(w', f, r, turns)
  {
    w' := AnimateAll(w, n, targets);
  }

  lemma {:induction false} AnimatedNext(w: World, n: nat, targets: seq<(int, int)>, w': World, f: nat, r: nat, turns: bool)
    requires 0 < n <= |w.slots| == |targets| && AllAnimated(w, n - 1, targets, f, r, turns)
    requires w' == AnimateAll(w, n, targets) && Inv(w', f, r, turns)
    ensures AllAnimated(w, n, targets, f, r, turns)
  {
  }

  lemma {:induction false} DoneKeepsNumbers(w: World)
    requires Numbers(w)
    ensures Numbers(Done(w))
  {
  }

  lemma {:induction false} DoneKeeps(w: World, f: nat, r: nat, turns: bool)
    requires Inv(w, f, r, turns)
    ensures Inv(Done(w), f, r, turns)
  {
    DoneKeepsNumbers(w);
    assert Captains(Done(w), f, r);
  }

  lemma {:induction false} FinishKeeps(w: World, f: nat, r: nat, turns: bool)
    requires Inv(w, f, r, turns)
    ensures Inv(Finish(w), f, r, turns)
  {
  }

  lemma {:induction false} UpdateKeeps(w: World, targets: seq<(int, int)>, f: nat, r: nat, turns: bool)
    requires Inv(w, f, r, turns) && |w.slots| == |targets|
    ensures Inv(Update(w, targets), f, r, turns)
  {
    AnimateAllKeeps(w, |w.slots|, targets, f, r, turns);
    var w1 := LastAnimated(w, |w.slots|, targets, f, r, turns);
    DoneKeeps(w1, f, r, turns);
    FinishKeeps(w1, f, r, turns);
  }

  // ---- Selecting ----

  /** Only captains are up, and the other one, if in play, is next. */
  lemma {:induction false} TurnFinds(w: World, k: nat, f: nat, r: nat, turns: bool)
    requires Inv(w, f, r, turns) && k < |w.slots| && w.slots[k].draft == CaptainUp
    ensures k in {f, r} && (turns ==> w.draft == MovingToPool)
    ensures var o := if k == f then r else f;
            OtherCaptain(w.slots, k, 0) == if w.slots[o].ignored then -1 else o
  {
    FindOther(w, f, r, k, 0);
  }

  lemma {:induction false} TurnKeepsNumbers(w: World, k: nat, o: nat)
    requires Numbers(w) && k < |w.slots| && o < |w.slots| && k != o
    ensures Numbers(SetDraft(SetDraft(w, o, CaptainUp), k, CaptainDown))
  {
    PutKeepsNumbers(w, o, w.slots[o].(draft := CaptainUp));
    PutKeepsNumbers(SetDraft(w, o, CaptainUp), k, w.slots[k].(draft := CaptainDown));
  }

  /** The captain who was up goes down, and the other comes up. */
  lemma {:induction false} TurnKeeps(w: World, k: nat, o: nat, f: nat, r: nat)
    requires Inv(w, f, r, false) && k in {f, r} && o == if k == f then r else f
    ensures var w' := SetDraft(SetDraft(w, o, CaptainUp), k, CaptainDown);
            && Inv(w', f, r, false) && Lead(w') == Lead(w)
            && w'.slots[k].draft == CaptainDown && w'.slots[o].draft == CaptainUp
  {
    TurnKeepsNumbers(w, k, o);
  }

  /** The count after the captain who was up has taken a turn. */
  lemma {:induction false} TookTurn(w: World, w': World, k: nat, f: nat, r: nat)
    requires Captains(w, f, r) && Turns(w, f, r) && k in {f, r} && w.slots[k].draft == CaptainUp
    requires Captains(w', f, r) && w'.draft == w.draft == MovingToPool
    requires !w'.slots[f].ignored && !w'.slots[r].ignored
    requires w'.slots[k].draft == CaptainDown && w'.slots[if k == f then r else f].draft == CaptainUp
    requires Lead(w') == Lead(w) + if k == f then 1 else -1
    ensures Turns(w', f, r)
  {
  }

  lemma {:induction false} PickKeepsNumbers(w: World, j: nat, k: nat)
    requires Numbers(w) && j < |w.slots| && k < |w.slots| && w.slots[k].team in {FED, ROM}
    ensures Numbers(Pick(w, j, k))
  {
  }

  /** A pick changes nothing about the captains. */
  lemma {:induction false} PickKeeps(w: World, j: nat, k: nat, f: nat, r: nat)
    requires Inv(w, f, r, false) && j < |w.slots| && !w.slots[j].captain && k in {f, r}
    ensures var w' := Pick(w, j, k);
            && Inv(w', f, r, false) && w'.slots[f] == w.slots[f] && w'.slots[r] == w.slots[r] && w'.draft == w.draft
            && Lead(w') == Lead(w) + if k == f then 1 else -1
  {
    PickKeepsNumbers(w, j, k);
  }

  lemma {:induction false} PickAndTurnKeeps(w: World, j: nat, k: nat, f: nat, r: nat, turns: bool)
    requires Inv(w, f, r, turns) && j < |w.slots| && k < |w.slots| && w.slots[k].draft == CaptainUp
    ensures Inv(PickAndTurn(w, j, k), f, r, turns)
  {
    TurnFinds(w, k, f, r, turns);
    var o := if k == f then r else f;
    if !w.slots[j].captain && !w.slots[o].ignored {
      TurnKeeps(w, k, o, f, r);
      PickKeeps(SetDraft(SetDraft(w, o, CaptainUp), k, CaptainDown), j, k, f, r);
      if turns { TookTurn(w, PickAndTurn(w, j, k), k, f, r); }
    }
  }

  lemma {:induction false} CountPass(w: World, team: int, f: nat, r: nat) returns (w': World)
    requires Inv(w, f, r, false)
    ensures w' == if team == FED then w.(homePasses := w.homePasses + 1) else w.(awayPasses := w.awayPasses + 1)
    ensures Inv(w', f, r, false) && Lead(w') == Lead(w) + if team == FED then 1 else -1
  {
    w' := if team == FED then w.(homePasses := w.homePasses + 1) else w.(awayPasses := w.awayPasses + 1);
    assert Numbers(w');
  }

  /** A captain in play hands over the turn by passing. */
  lemma {:induction false} HandOver(w: World, k: nat, o: nat, f: nat, r: nat, turns: bool) returns (w': World)
    requires Inv(w, f, r, turns) && k in {f, r} && o == (if k == f then r else f) && !w.slots[o].ignored
    requires w.slots[k].draft == CaptainUp && (turns ==> w.draft == MovingToPool)
    ensures var w1 := SetDraft(SetDraft(w, o, CaptainUp), k, CaptainDown);
            w' == if w.slots[k].team == FED then w1.(homePasses := w1.homePasses + 1) else w1.(awayPasses := w1.awayPasses + 1)
    ensures Inv(w', f, r, turns)
  {
    TurnKeeps(w, k, o, f, r);
    w' := CountPass(SetDraft(SetDraft(w, o, CaptainUp), k, CaptainDown), w.slots[k].team, f, r);
    if turns { TookTurn(w, w', k, f, r); }
  }

  lemma {:induction false} PassKeeps(w: World, k: nat, f: nat, r: nat, turns: bool)
    requires Inv(w, f, r, turns) && k < |w.slots| && w.slots[k].draft == CaptainUp
    ensures Inv(Pass(w, k), f, r, turns)
  {
    TurnFinds(w, k, f, r, turns);
    var o := if k == f then r else f;
    if !w.slots[o].ignored {
      var w' := HandOver(w, k, o, f, r, turns);
      assert Pass(w, k) == w';
    }
  }

  lemma {:induction false} SelectFromPoolKeeps(w: World, me: nat, n: nat, f: nat, r: nat, turns: bool)
    requires Inv(w, f, r, turns) && me < |w.slots| && n < |w.slots|
    ensures Inv(SelectFromPool(w, me, n), f, r, turns)
  {
    if w.slots[me].draft == CaptainUp {
      PickAndTurnKeeps(w, n, me, f, r, turns);
    } else if w.slots[me].draft == PickedSelector {
      var k := TeamToCaptain(w.slots, w.slots[me].team, 0);
      if k != -1 && w.slots[k].draft == CaptainUp { PickAndTurnKeeps(w, n, k, f, r, turns); }
    }
  }

  lemma {:induction false} SelectKeeps(w: World, me: nat, n: nat, f: nat, r: nat, turns: bool)
    requires Inv(w, f, r, turns) && me < |w.slots| && n < |w.slots|
    ensures Inv(Select(w, me, n), f, r, turns)
  {
    var s := w.slots[n];
    match s.draft
    case CaptainDown => if w.slots[me].draft == CaptainUp { PassKeeps(w, me, f, r, turns); }
    case MovingToPool => SelectFromPoolKeeps(w, me, n, f, r, turns);
    case Pooled => SelectFromPoolKeeps(w, me, n, f, r, turns);
    case MovingToPick => PutKeeps(w, n, s.(draft := PickedSelector), f, r, turns);
    case Picked => PutKeeps(w, n, s.(draft := PickedSelector), f, r, turns);
    case PickedSelector => PutKeeps(w, n, s.(draft := Picked), f, r, turns);
    case _ =>
  }

  // ---- Runs ----

  /** This event is not a captain's departure or re-entry. */
  predicate CaptainStays(e: Event, f: nat, r: nat) {
    && (e.EvEnter? ==> e.h != f && e.h != r)
    && (e.EvChange? && e.ignored ==> e.c != f && e.c != r)
  }

  lemma {:induction false} EnterKeeps(w: World, h: nat, team: int, x: int, y: int, f: nat, r: nat, turns: bool)
    requires Inv(w, f, r, turns) && h < |w.slots| && (turns ==> h != f && h != r)
    ensures Inv(Enter(w, h, team, x, y), f, r, turns)
  {
    PutKeeps(w, h, Enter(w, h, team, x, y).slots[h], f, r, turns);
  }

  lemma {:induction false} ChangeKeeps(w: World, h: nat, ignored: bool, alive: bool, x: int, y: int, f: nat, r: nat, turns: bool)
    requires Inv(w, f, r, turns) && h < |w.slots| && (turns && ignored ==> h != f && h != r)
    ensures Inv(Change(w, h, ignored, alive, x, y), f, r, turns)
  {
    PutKeeps(w, h, Change(w, h, ignored, alive, x, y).slots[h], f, r, turns);
  }

  lemma {:induction false} ApplyKeeps(w: World, e: Event, f: nat, r: nat, turns: bool)
    requires Inv(w, f, r, turns) && Enabled(w, e) && (turns ==> CaptainStays(e, f, r))
    ensures Inv(Apply(w, e), f, r, turns)
  {
    match e
    case EvUpdate(targets) => UpdateKeeps(w, targets, f, r, turns);
    case EvSelect(me, n) => SelectKeeps(w, me, n, f, r, turns);
    case EvEnter(h, team, x, y) => EnterKeeps(w, h, team, x, y, f, r, turns);
    case EvChange(h, ignored, alive, x, y) => ChangeKeeps(w, h, ignored, alive, x, y, f, r, turns);
  }

  lemma {:induction false} AfterKeeps(w: World, events: seq<Event>, f: nat, r: nat, turns: bool)
    requires Inv(w, f, r, turns)
    requires turns ==> forall e :: e in events ==> CaptainStays(e, f, r)
    ensures Inv(After(w, events), f, r, turns)
  {
    if events != [] {
      var n := |events| - 1;
      AfterKeeps(w, events[..n], f, r, turns);
      var w1 := After(w, events[..n]);
      assert events[n] in events;
      if Enabled(w1, events[n]) { ApplyKeeps(w1, events[n], f, r, turns); }
    }
  }

  // ---- Beginning a draft ----

  /** A slot out of play that still carries a number from an earlier draft. */
  predicate Leftover(s: Slot) {
    s.ignored && (HasPool(s) || HasPick(s))
  }

  /** inl_draft_begin numbers the pool 0, 1, 2, ... and leaves ignored slots alone. */
  ghost predicate Assigned(w: World, r: World, n: nat)
    requires n <= |w.slots|
  {
    && |r.slots| == |w.slots| && r == r.(pool := r.pool) && r.draft == w.draft
    && r.home == w.home && r.away == w.away && r.homePasses == w.homePasses && r.awayPasses == w.awayPasses
    && (forall h :: 0 <= h < |w.slots| ==> AssignedSlot(w.slots[h], r.slots[h], h < n, r.pool))
    && (forall h, i :: 0 <= h < i < n && Numbered(r.slots[h]) && Numbered(r.slots[i]) ==> r.slots[h].pool != r.slots[i].pool)
    && (forall v :: 0 <= v < r.pool ==> Taken(r.slots, n, v))
  }

  predicate Numbered(s: Slot) {
    !s.ignored && !s.captain
  }

  ghost predicate Taken(slots: seq<Slot>, n: nat, v: int) {
    exists h :: 0 <= h < n && h < |slots| && Numbered(slots[h]) && slots[h].pool == v
  }

  predicate AssignedSlot(was: Slot, now: Slot, done: bool, pool: nat) {
    && now.captain == was.captain && now.ignored == was.ignored && (now.captain ==> now.team == was.team)
    && (was.ignored || !done ==> now == was)
    && (!was.ignored && done ==> now.draft == MovingToPool && (!now.captain ==> 0 <= now.pool < pool))
  }

  lemma {:induction false} AssignAllNumbers(w: World, n: nat)
    requires n <= |w.slots| && w.pool == 0
    ensures Assigned(w, AssignAll(w, n), n)
  {
    if n > 0 {
      AssignAllNumbers(w, n - 1);
      AssignNext(w, AssignAll(w, n - 1), n);
    }
  }

  lemma {:induction false} AssignNext(w: World, r: World, n: nat)
    requires 0 < n <= |w.slots| && Assigned(w, r, n - 1)
    ensures Assigned(w, if r.slots[n - 1].ignored then r else AssignToPool(r, n - 1), n)
  {
    var r' := if r.slots[n - 1].ignored then r else AssignToPool(r, n - 1);
    assert AssignedSlot(w.slots[n - 1], r.slots[n - 1], false, r.pool);
    forall v | 0 <= v < r'.pool
      ensures Taken(r'.slots, n, v)
    {
      if v < r.pool {
        assert Taken(r.slots, n - 1, v);
        var h :| 0 <= h < n - 1 && Numbered(r.slots[h]) && r.slots[h].pool == v;
        assert r'.slots[h] == r.slots[h];
      } else {
        assert Numbered(r'.slots[n - 1]) && r'.slots[n - 1].pool == v;
      }
    }
    forall h | 0 <= h < |w.slots|
      ensures AssignedSlot(w.slots[h], r'.slots[h], h < n, r'.pool)
    {
      assert AssignedSlot(w.slots[h], r.slots[h], h < n - 1, r.pool);
    }
  }

  /** A draft starts with sound numbers exactly when no slot out of play carries a number from
      an earlier draft. */
  lemma {:induction false} BeginNumbersExactly(w: World)
    ensures Numbers(Begin(w)) <==> forall h :: 0 <= h < |w.slots| ==> !Leftover(w.slots[h])
  {
    var w0 := w.(draft := MovingToPool, pool := 0, home := 0, away := 0, homePasses := 0, awayPasses := 0);
    var r := Begin(w);
    AssignAllNumbers(w0, |w.slots|);
    if h :| 0 <= h < |w.slots| && Leftover(w.slots[h]) {
      LeftoverShows(w0, r, h);
    } else {
      NoLeftover(w0, r);
    }
  }

  /** A number left over clashes with a new one, or is not below its counter. */
  lemma {:induction false} LeftoverShows(w: World, r: World, h: nat)
    requires Assigned(w, r, |w.slots|) && w.home == 0 && w.away == 0 && h < |w.slots| && Leftover(w.slots[h])
    ensures !Numbers(r)
  {
    assert AssignedSlot(w.slots[h], r.slots[h], true, r.pool);
    if HasPool(r.slots[h]) && 0 <= r.slots[h].pool < r.pool {
      assert Taken(r.slots, |w.slots|, r.slots[h].pool);
      var i :| 0 <= i < |w.slots| && Numbered(r.slots[i]) && r.slots[i].pool == r.slots[h].pool;
      assert AssignedSlot(w.slots[i], r.slots[i], true, r.pool);
      SamePool(r, h, i);
    }
  }

  lemma {:induction false} SamePool(w: World, h: nat, i: nat)
    requires h < |w.slots| && i < |w.slots| && h != i
    requires HasPool(w.slots[h]) && HasPool(w.slots[i]) && w.slots[h].pool == w.slots[i].pool
    ensures !Numbers(w)
  {
  }

  lemma {:induction false} NoLeftover(w: World, r: World)
    requires Assigned(w, r, |w.slots|) && forall h :: 0 <= h < |w.slots| ==> !Leftover(w.slots[h])
    ensures Numbers(r)
  {
    forall h | 0 <= h < |r.slots|
      ensures !HasPick(r.slots[h]) && (HasPool(r.slots[h]) ==> Numbered(r.slots[h]) && 0 <= r.slots[h].pool < r.pool)
    {
      assert AssignedSlot(w.slots[h], r.slots[h], true, r.pool);
    }
  }

  /** What must hold when the captains agree to hold a draft. */
  ghost predicate Ready(w: World, f: nat, r: nat) {
    && Captains(w, f, r)
    && forall h :: 0 <= h < |w.slots| && w.slots[h].ignored ==> w.slots[h].draft == Off
  }

  lemma {:induction false} BeginEstablishes(w: World, f: nat, r: nat)
    requires Ready(w, f, r)
    ensures Inv(Begin(w), f, r, !w.slots[f].ignored && !w.slots[r].ignored)
  {
    var w0 := w.(draft := MovingToPool, pool := 0, home := 0, away := 0, homePasses := 0, awayPasses := 0);
    AssignAllNumbers(w0, |w.slots|);
    BeginNumbersExactly(w);
    RolesAssigned(w0, Begin(w), f, r);
  }

  lemma {:induction false} RolesAssigned(w: World, b: World, f: nat, r: nat)
    requires Ready(w, f, r) && Assigned(w, b, |w.slots|) && b.draft == MovingToPool && Lead(b) == 0
    ensures Captains(b, f, r) && Roles(b, f, r)
    ensures !w.slots[f].ignored && !w.slots[r].ignored ==> Turns(b, f, r)
  {
    forall h | 0 <= h < |w.slots|
      ensures AssignedSlot(w.slots[h], b.slots[h], true, b.pool) && !IsCaptainState(b.slots[h].draft)
    {
      assert AssignedSlot(w.slots[h], b.slots[h], true, b.pool);
    }
  }

  // ---- Main results ----

  /** In every run of a draft, whatever is selected and whoever dies, leaves or comes back, the
      captains too, only captains are ever up, and at most one of those in play. */
  lemma {:induction false} AtMostOneUp(w: World, events: seq<Event>, f: nat, r: nat)
    requires Ready(w, f, r)
    ensures var slots := After(Begin(w), events).slots;
            && |slots| == |w.slots|
            && (forall h :: 0 <= h < |slots| && slots[h].draft == CaptainUp ==> h == f || h == r)
            && !(Up(slots[f]) && Up(slots[r]))
  {
    BeginEstablishes(w, f, r);
    AfterKeeps(Begin(w), events, f, r, false);
    AfterKeepsLength(Begin(w), events);
  }

  lemma {:induction false} ApplyKeepsLength(w: World, e: Event)
    requires Enabled(w, e)
    ensures |Apply(w, e).slots| == |w.slots|
  {
  }

  lemma {:induction false} AfterKeepsLength(w: World, events: seq<Event>)
    ensures |After(w, events).slots| == |w.slots|
  {
    if events != [] {
      var n := |events| - 1;
      AfterKeepsLength(w, events[..n]);
      if Enabled(After(w, events[..n]), events[n]) { ApplyKeepsLength(After(w, events[..n]), events[n]); }
    }
  }

  /** In every run, numbers in use are below their counters, no two players in the pool have
      the same pool number, and no two picks of a team have the same pick number, even when
      players die and are put back into the pool. */
  lemma {:induction false} NumbersAreDistinct(w: World, events: seq<Event>, f: nat, r: nat)
    requires Ready(w, f, r)
    ensures Numbers(After(Begin(w), events))
  {
    BeginEstablishes(w, f, r);
    AfterKeeps(Begin(w), events, f, r, false);
  }

  /** While both captains stay in play, and neither re-enters, picks plus passes of the two sides differ by at
      most one; so the picks differ by at most one more than the passes. */
  lemma {:induction false} PicksAlternate(w: World, events: seq<Event>, f: nat, r: nat)
    requires Ready(w, f, r) && !w.slots[f].ignored && !w.slots[r].ignored
    requires forall e :: e in events ==> CaptainStays(e, f, r)
    ensures var a := After(Begin(w), events);
            && -1 <= (a.home + a.homePasses) - (a.away + a.awayPasses) <= 1
            && Abs(a.home - a.away) <= 1 + a.homePasses + a.awayPasses
  {
    BeginEstablishes(w, f, r);
    AfterKeeps(Begin(w), events, f, r, true);
  }

  // ---- Ships arrive ----

  /** A ship farther than 750 moves at least 37 closer, so it strictly approaches. */
  lemma {:induction false} TowardShrinks(x: int, y: int, tx: int, ty: int)
    requires Distance(x, y, tx, ty) > 750
    ensures Distance(Toward(x, tx), Toward(y, ty), tx, ty) <= Distance(x, y, tx, ty) - 37
  {
  }

  /** Where one update takes an animated ship. */
  function Moved(x: int, y: int, t: (int, int)): (int, int) {
    if Distance(x, y, t.0, t.1) > 750 then (Toward(x, t.0), Toward(y, t.1)) else t
  }

  predicate Animated(s: Slot) {
    !s.ignored && s.alive
  }

  /** A slot is where `place` says, as much animated as before. */
  predicate MovedTo(s: Slot, s': Slot, place: (int, int)) {
    Animated(s') == Animated(s) && (s'.x, s'.y) == place
  }

  function Place(s: Slot, moves: bool, target: (int, int)): (int, int) {
    if moves && Animated(s) then Moved(s.x, s.y, target) else (s.x, s.y)
  }

  lemma {:induction false} AnimateMovesOne(w: World, h: nat, target: (int, int), i: nat)
    requires h < |w.slots| && i < |w.slots|
    ensures MovedTo(w.slots[i], Animate(w, h, target).slots[i], Place(w.slots[i], i == h, target))
  {
  }

  lemma {:induction false} AnimateAllMoves(w: World, n: nat, targets: seq<(int, int)>, i: nat)
    requires n <= |w.slots| == |targets| && i < |w.slots|
    ensures MovedTo(w.slots[i], AnimateAll(w, n, targets).slots[i], Place(w.slots[i], i < n, targets[i]))
  {
    if n > 0 {
      var w1 := AnimateAll(w, n - 1, targets);
      AnimateAllMoves(w, n - 1, targets, i);
      AnimateMovesOne(w1, n - 1, targets[n - 1], i);
      MovesOnce(w.slots[i], w1.slots[i], AnimateAll(w, n, targets).slots[i], i, n, targets);
    }
  }

  lemma {:induction false} MovesOnce(s: Slot, s1: Slot, s2: Slot, i: nat, n: nat, targets: seq<(int, int)>)
    requires 0 < n <= |targets| && i < |targets|
    requires MovedTo(s, s1, Place(s, i < n - 1, targets[i])) && MovedTo(s1, s2, Place(s1, i == n - 1, targets[n - 1]))
    ensures MovedTo(s, s2, Place(s, i < n, targets[i]))
  {
  }

  /** `n` updates in a row with the same targets. */
  function Updates(w: World, targets: seq<(int, int)>, n: nat): (r: World)
    requires |w.slots| == |targets|
    ensures |r.slots| == |w.slots|
  {
    if n == 0 then w else Update(Updates(w, targets, n - 1), targets)
  }

  /** With a fixed target, every update brings an animated ship at least 37 closer until it
      arrives: it is there after distance / 37 + 1 updates, and stays. */
  lemma {:induction false} ShipArrives(w: World, targets: seq<(int, int)>, i: nat, n: nat)
    requires |w.slots| == |targets| && i < |w.slots| && Animated(w.slots[i])
    ensures var s, s', t := w.slots[i], Updates(w, targets, n).slots[i], targets[i];
            && Animated(s')
            && (Distance(s'.x, s'.y, t.0, t.1) == 0
                || Distance(s'.x, s'.y, t.0, t.1) <= Distance(s.x, s.y, t.0, t.1) - 37 * n)
            && (n > Distance(s.x, s.y, t.0, t.1) / 37 ==> (s'.x, s'.y) == t)
  {
    if n > 0 {
      ShipArrives(w, targets, i, n - 1);
      var before := Updates(w, targets, n - 1);
      AnimateAllMoves(before, |before.slots|, targets, i);
      var s, t := before.slots[i], targets[i];
      if Distance(s.x, s.y, t.0, t.1) > 750 { TowardShrinks(s.x, s.y, t.0, t.1); }
    }
  }
}
