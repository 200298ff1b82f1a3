/** The draft in the daemon's own form (ntserv/draft.c): methods that loop over the player
    slots and update them in place, each proved equal to the state machine of module Draft. */
module DraftGame {
  import opened Draft
  import DraftEffects

  class Game {
    var slots: seq<Slot>
    var draft: State       // context->inl_draft
    var pool: nat          // context->inl_pool
    var homePick: nat      // context->inl_home_pick
    var awayPick: nat      // context->inl_away_pick
    ghost var homePasses: nat
    ghost var awayPasses: nat

    ghost function Model(): World
      reads this
    {
      World(slots, draft, pool, homePick, awayPick, homePasses, awayPasses)
    }

    constructor (initial: seq<Slot>)
      ensures Model() == World(initial, Off, 0, 0, 0, 0, 0)
    {
      slots, draft, pool, homePick, awayPick := initial, Off, 0, 0, 0;
      homePasses, awayPasses := 0, 0;
    }

    method FindTeamCaptain(team: int) returns (k: int)
      ensures k == TeamToCaptain(slots, team, 0)
    {
      for h := 0 to |slots|
        invariant TeamToCaptain(slots, team, 0) == TeamToCaptain(slots, team, h)
      {
        var j := slots[h];
        if j.ignored { continue; }
        if !j.captain { continue; }
        if j.team != team { continue; }
        if j.draft == CaptainUp || j.draft == CaptainDown { return h; }
      }
      return -1;
    }

    method AssignToPool(j: nat)
      requires j < |slots|
      modifies this
      ensures Model() == Draft.AssignToPool(old(Model()), j)
    {
      slots := slots[j := slots[j].(draft := MovingToPool, pick := 0)];
      if slots[j].captain { return; }
      slots := slots[j := slots[j].(pool := pool, team := NOBODY)];
      pool := pool + 1;
    }

    method ArrivalCaptain(k: nat)
      requires k < |slots|
      modifies this
      ensures Model() == Draft.ArrivalCaptain(old(Model()), k)
    {
      var otherTeam := if slots[k].team == ROM then FED else ROM;
      var other := FindTeamCaptain(otherTeam);
      if other == -1 {
        slots := slots[k := slots[k].(draft := CaptainUp)];
        return;
      }
      if slots[other].draft == CaptainUp {
        slots := slots[k := slots[k].(draft := CaptainDown)];
        return;
      }
      slots := slots[k := slots[k].(draft := CaptainUp)];
    }

    method Arrival(j: nat)
      requires j < |slots|
      modifies this
      ensures Model() == Draft.Arrival(old(Model()), j)
    {
      match slots[j].draft
      case MovingToPool =>
        if slots[j].captain {
          ArrivalCaptain(j);
          return;
        }
        slots := slots[j := slots[j].(draft := Pooled)];
      case MovingToPick =>
        slots := slots[j := slots[j].(draft := Picked)];
      case Pooled =>
        if slots[j].captain { ArrivalCaptain(j); }
      case Picked =>
        if slots[j].captain { ArrivalCaptain(j); }
      case MovingToHome =>
        slots := slots[j := slots[j].(draft := End)];
      case _ =>
    }

    method Begin()
      modifies this
      ensures Model() == Draft.Begin(old(Model())) && DraftEffects.Numbered(old(slots), slots, |old(slots)|)
    {
      ghost var after := DraftEffects.BeginExactly(Model());
      draft, pool, homePick, awayPick := MovingToPool, 0, 0, 0;
      homePasses, awayPasses := 0, 0;
      ghost var start := Model();
      for h := 0 to |slots|
        invariant |slots| == |start.slots| && Model() == AssignAll(start, h)
      {
        if slots[h].ignored { continue; }
        AssignToPool(h);
      }
    }

    /** Animate one slot. */
    method Animate(h: nat, target: (int, int))
      requires h < |slots|
      modifies this
      ensures Model() == Draft.Animate(old(Model()), h, target)
    {
      if slots[h].ignored { return; }
      if !slots[h].alive { return; }
      if draft == MovingToPool && slots[h].draft == Off {
        AssignToPool(h);
      }
      var dx, dy := slots[h].x - target.0, slots[h].y - target.1;
      if Abs(dx) + Abs(dy) > 750 {
        slots := slots[h := slots[h].(x := slots[h].x - Tenth(dx), y := slots[h].y - Tenth(dy))];
      } else {
        slots := slots[h := slots[h].(x := target.0, y := target.1)];
        Arrival(h);
      }
    }

    method PoolSize() returns (k: nat)
      ensures k == 0 <==> PoolEmpty(slots)
    {
      k := 0;
      for h := 0 to |slots|
        invariant k == 0 <==> forall i :: 0 <= i < h ==> !InPoolCount(slots[i])
      {
        if InPoolCount(slots[h]) { k := k + 1; }
      }
    }

    method CountMovingHome() returns (k: nat)
      ensures k == 0 <==> AllHome(slots)
    {
      k := 0;
      for h := 0 to |slots|
        invariant k == 0 <==> forall i :: 0 <= i < h ==> slots[i].ignored || slots[i].draft != MovingToHome
      {
        if slots[h].ignored { continue; }
        if slots[h].draft == MovingToHome { k := k + 1; }
      }
    }

    method Done()
      modifies this
      ensures Model() == Draft.Done(old(Model()))
    {
      draft := MovingToHome;
      for h := 0 to |slots|
        invariant |slots| == |old(slots)|
        invariant Model() == old(Model()).(draft := MovingToHome, slots := slots)
        invariant forall i :: h <= i < |slots| ==> slots[i] == old(slots)[i]
        invariant forall i :: 0 <= i < h ==> slots[i] == Draft.Done(old(Model())).slots[i]
      {
        if slots[h].ignored { continue; }
        slots := slots[h := slots[h].(draft := MovingToHome)];
      }
      assert slots == Draft.Done(old(Model())).slots;
    }

    method Finish()
      modifies this
      ensures Model() == Draft.Finish(old(Model()))
    {
      draft := Off;
      for h := 0 to |slots|
        invariant |slots| == |old(slots)|
        invariant Model() == old(Model()).(draft := Off, slots := slots)
        invariant forall i :: h <= i < |slots| ==> slots[i] == old(slots)[i]
        invariant forall i :: 0 <= i < h ==> slots[i] == Draft.Finish(old(Model())).slots[i]
      {
        slots := slots[h := slots[h].(draft := Off)];
      }
      assert slots == Draft.Finish(old(Model())).slots;
    }

    /** inl_draft_update: animate every slot, then end a phase that is over. */
    method Update(targets: seq<(int, int)>)
      requires |targets| == |slots|
      modifies this
      ensures Model() == Draft.Update(old(Model()), targets) && DraftEffects.UpdateTurn(old(Model()), Model(), targets)
    {
      ghost var after := DraftEffects.UpdateExactly(Model(), targets);
      ghost var start := Model();
      for h := 0 to |slots|
        invariant |slots| == |start.slots| && Model() == AnimateAll(start, h, targets)
      {
        Animate(h, targets[h]);
      }
      EndPhase();
    }

    /** The checks behind the loop. */
    method EndPhase()
      modifies this
      ensures Model() == Ended(old(Model()))
    {
      match draft
      case MovingToPool =>
        var size := PoolSize();
        if size == 0 { Done(); }
      case MovingToHome =>
        var count := CountMovingHome();
        if count == 0 { Finish(); }
      case _ =>
    }

    /** inl_draft_next: false, and nothing changed, when there is no other captain. */
    method Next(k: nat) returns (found: bool)
      requires k < |slots|
      modifies this
      ensures found == (OtherCaptain(old(slots), k, 0) != -1)
      ensures Model() == if found then Turn(old(Model()), k) else old(Model())
    {
      for h := 0 to |slots|
        invariant Model() == old(Model())
        invariant OtherCaptain(slots, k, 0) == OtherCaptain(slots, k, h)
      {
        if h == k { continue; }
        if slots[h].ignored { continue; }
        if !slots[h].captain { continue; }
        slots := slots[h := slots[h].(draft := CaptainUp)];
        slots := slots[k := slots[k].(draft := CaptainDown)];
        return true;
      }
      return false;
    }

    method Pick(j: nat, k: nat)
      requires j < |slots| && k < |slots|
      modifies this
      ensures Model() == Draft.Pick(old(Model()), j, k)
    {
      var team := slots[k].team;
      if slots[j].team != team {
        slots := slots[j := slots[j].(team := team)];
      }
      if team == FED {
        slots := slots[j := slots[j].(pick := homePick)];
        homePick := homePick + 1;
      }
      if team == ROM {
        slots := slots[j := slots[j].(pick := awayPick)];
        awayPick := awayPick + 1;
      }
      slots := slots[j := slots[j].(draft := MovingToPick)];
    }

    method SelectFromPool(me: nat, n: nat)
      requires me < |slots| && n < |slots|
      modifies this
      ensures Model() == Draft.SelectFromPool(old(Model()), me, n)
    {
      var k: int := me;
      if slots[me].draft == PickedSelector {
        k := FindTeamCaptain(slots[me].team);
        if k == -1 { return; }
        if slots[k].draft != CaptainUp { return; }
      } else if slots[me].draft != CaptainUp {
        return;
      }
      if !slots[n].captain {
        var found := Next(k);
        if found { Pick(n, k); }
      }
    }

    /** inl_draft_select: player `me` fingers slot `n`. */
    method Select(me: nat, n: nat)
      requires me < |slots| && n < |slots|
      modifies this
      ensures Model() == Draft.Select(old(Model()), me, n) && DraftEffects.SelectTurn(old(Model()), Model(), me, n)
    {
      ghost var after := DraftEffects.SelectExactly(Model(), me, n);
      var captain := IsCaptainState(slots[me].draft);
      match slots[n].draft
      case CaptainDown =>
        if slots[me].draft == CaptainUp {
          var found := Next(me);
          if found {
            if slots[me].team == FED { homePasses := homePasses + 1; } else { awayPasses := awayPasses + 1; }
          }
        }
      case MovingToPool => SelectFromPool(me, n);
      case Pooled => SelectFromPool(me, n);
      case MovingToPick =>
        if captain && slots[n].team == slots[me].team { slots := slots[n := slots[n].(draft := PickedSelector)]; }
      case Picked =>
        if captain && slots[n].team == slots[me].team { slots := slots[n := slots[n].(draft := PickedSelector)]; }
      case PickedSelector =>
        if captain && slots[n].team == slots[me].team { slots := slots[n := slots[n].(draft := Picked)]; }
      case _ =>
    }
  }
}
