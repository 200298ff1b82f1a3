/** The army rules in the daemon's own form (ntserv/daemon.c): methods that loop over the planets,
    ships and teams and update them in place, each proved equal to its function in module Armies. */
module ArmyDaemon {
  import opened Armies
  import ArmyEffects

  class Daemon {
    var planets: seq<Planet>
    var ships: seq<Ship>
    var plcount: seq<int>
    var surrender: seq<int>
    ghost var attacks: nat
    ghost var granted: int
    const cfg: Config

    ghost function Model(): World
      reads this
    {
      World(planets, ships, plcount, surrender, attacks, granted)
    }

    constructor (w: World, c: Config)
      requires WellFormed(w)
      ensures Model() == w && cfg == c
    {
      planets, ships, plcount, surrender := w.planets, w.ships, w.plcount, w.surrender;
      attacks, granted := w.attacks, w.granted;
      cfg := c;
    }

    // ---- Census, victory, genocide ----

    /** The planets from `from` to `to`, added to the team counters, and counted by themselves. */
    method CountSystem(from: nat, to: nat) returns (counts: seq<nat>)
      requires from <= to <= |planets| && PlanetsFit(planets) && |plcount| == TEAMCODES
      modifies `plcount
      ensures |counts| == |plcount| == TEAMCODES
      ensures forall t :: 0 <= t < TEAMCODES ==> counts[t] == CountOwned(planets[from..to], t)
      ensures forall t :: 0 <= t < TEAMCODES ==> plcount[t] == old(plcount[t]) + counts[t]
    {
      counts := seq(TEAMCODES, _ => 0);
      for h := from to to
        invariant |counts| == |plcount| == TEAMCODES
        invariant forall t :: 0 <= t < TEAMCODES ==> counts[t] == CountOwned(planets[from..h], t)
        invariant forall t :: 0 <= t < TEAMCODES ==> plcount[t] == old(plcount[t]) + counts[t]
      {
        var owner := planets[h].owner;
        plcount := plcount[owner := plcount[owner] + 1];
        counts := counts[owner := counts[owner] + 1];
        ghost var done := planets[from..h + 1];
        assert done[..|done| - 1] == planets[from..h] && done[|done| - 1] == planets[h];
      }
    }

    /** Counts the ten planets of a home system, and says who it counts for. */
    method HolderOf(from: nat) returns (holder: nat)
      requires from + 10 <= |planets| && PlanetsFit(planets) && |plcount| == TEAMCODES
      modifies `plcount
      ensures holder == SystemOf(planets[from..from + 10]) && |plcount| == TEAMCODES
      ensures forall t :: 0 <= t < TEAMCODES ==> plcount[t] == old(plcount[t]) + CountOwned(planets[from..from + 10], t)
    {
      var counts := CountSystem(from, from + 10);
      if counts[FED] + counts[ROM] + counts[KLI] == 0 { return ORI; }
      if counts[FED] + counts[ROM] + counts[ORI] == 0 { return KLI; }
      if counts[FED] + counts[KLI] + counts[ORI] == 0 { return ROM; }
      if counts[ROM] + counts[KLI] + counts[ORI] == 0 { return FED; }
      return NOBODY;
    }

    method ClearCounters()
      requires |plcount| == TEAMCODES
      modifies `plcount
      ensures |plcount| == TEAMCODES
      ensures forall t :: 0 <= t < TEAMCODES ==> plcount[t] == if t == NOBODY || t in TEAMS then 0 else old(plcount[t])
    {
      plcount := plcount[NOBODY := 0];
      for i := 0 to 4
        invariant |plcount| == TEAMCODES && plcount[NOBODY] == 0
        invariant forall t :: 1 <= t < TEAMCODES ==>
          plcount[t] == if t in [FED, ROM, KLI, ORI][..i] then 0 else old(plcount[t])
      {
        plcount := plcount[[FED, ROM, KLI, ORI][i] := 0];
      }
      assert [FED, ROM, KLI, ORI][..4] == [FED, ROM, KLI, ORI];
    }

    /** Counts system i, and notes the team it counts for. */
    method AddSystem(i: nat, before: seq<nat>) returns (team: seq<nat>)
      requires WellFormed(Model()) && i < 4 && before == Standings(planets, i)
      modifies `plcount
      ensures |plcount| == TEAMCODES && plcount == Counted(System(planets, i), old(plcount))
      ensures team == Standings(planets, i + 1)
    {
      var holder := HolderOf(10 * i);
      team := before;
      if holder != NOBODY { team := team[holder := team[holder] + 1]; }
    }

    /** Recounts the planets, system by system, and the systems each team holds. */
    method CountSystems() returns (team: seq<nat>)
      requires WellFormed(Model())
      modifies `plcount
      ensures plcount == Tally(planets, old(plcount))
      ensures team == Standings(planets, 4)
    {
      ClearCounters();
      team := seq(TEAMCODES, _ => 0);
      ghost var cleared := plcount;
      NoneCounted(planets, cleared);
      for i := 0 to 4
        invariant |plcount| == TEAMCODES && plcount == Counted(planets[..10 * i], cleared)
        invariant team == Standings(planets, i)
      {
        team := AddSystem(i, team);
        CountedGrows(planets, cleared, i);
      }
      AllCounted(planets, old(plcount), cleared);
    }

    method CheckWin(winner: nat) returns (won: bool)
      requires WellFormed(Model()) && winner < TEAMCODES
      modifies this
      ensures (Model(), won) == Armies.CheckWin(old(Model()), cfg, winner)
    {
      if cfg.inl { return false; }
      var team := CountSystems();
      if surrender[winner] > 0 && plcount[winner] == SURREND {
        surrender := surrender[winner := 0];
      }
      won := team[FED] >= VICTORY || team[ROM] >= VICTORY || team[KLI] >= VICTORY || team[ORI] >= VICTORY;
    }

    method AddTroops(loser: nat, winner: nat, d: Draw)
      requires WellFormed(Model()) && |d.gifts| == |planets|
      modifies this
      ensures Model() == Armies.AddTroops(old(Model()), loser, winner, d)
    {
      var count := 0;
      for i := 0 to |ships|
        invariant count == CountPlayers(ships[..i], loser)
      {
        if !ships[i].free && ships[i].team == loser { count := count + 1; }
        assert ships[..i + 1][..i] == ships[..i];
      }
      assert ships[..|ships|] == ships;
      if count < 3 { return; }
      if count < 6 && d.pass % count == 0 { return; }
      Enroll(winner, d.gifts, count);
      assert planets == Armies.AddTroops(old(Model()), loser, winner, d).planets;
    }

    method Enroll(winner: nat, gifts: seq<nat>, count: nat)
      requires |gifts| == |planets| && count > 0
      modifies `planets, `granted
      ensures |planets| == old(|planets|) && granted == old(granted) + Gifts(old(planets), winner, gifts, count)
      ensures forall p :: 0 <= p < |planets| ==>
        planets[p] == old(planets)[p].(armies := old(planets)[p].armies + Gift(old(planets)[p], winner, gifts[p], count))
    {
      ghost var before := planets;
      for i := 0 to |planets|
        invariant |planets| == |before| && forall p :: i <= p < |before| ==> planets[p] == before[p]
        invariant forall p :: 0 <= p < i ==>
          planets[p] == before[p].(armies := before[p].armies + Gift(before[p], winner, gifts[p], count))
        invariant granted == old(granted) + Gifts(before[..i], winner, gifts[..i], count)
      {
        var given := gifts[i] % (2 * count);
        if planets[i].owner == winner {
          planets := planets[i := planets[i].(armies := planets[i].armies + given)];
          granted := granted + given;
        }
        assert before[..i + 1][..i] == before[..i] && gifts[..i + 1][..i] == gifts[..i];
      }
      assert before[..|before|] == before && gifts[..|before|] == gifts;
    }

    /** Everyone alive on the team explodes. */
    method KillTeam(t: nat)
      modifies `ships
      ensures ships == Armies.KillTeam(old(ships), t)
    {
      for i := 0 to |ships|
        invariant |ships| == old(|ships|) && forall s :: i <= s < |ships| ==> ships[s] == old(ships[s])
        invariant forall s :: 0 <= s < i ==> ships[s] == Armies.KillTeam(old(ships), t)[s]
      {
        if ships[i].alive && ships[i].team == t {
          ships := ships[i := ships[i].(alive := false)];
        }
      }
    }

    method CheckGen(loser: nat, winner: nat, d: Draw)
      requires WellFormed(Model()) && loser < TEAMCODES && winner < TEAMCODES && |d.gifts| == |planets|
      modifies this
      ensures Model() == Armies.CheckGen(old(Model()), cfg, loser, winner, d)
      ensures ArmyEffects.Censused(old(Model()), Model(), cfg, loser, winner, d)
    {
      ArmyEffects.CheckGenExactly(Model(), cfg, loser, winner, d);
      if cfg.inl { return; }
      var home := RecountFor(loser);
      if surrender[loser] == 0 && plcount[loser] == cfg.surrenderStart {
        surrender := surrender[loser := cfg.minutes];
      }
      assert Model() == Recounted(old(Model()), cfg, loser);
      if plcount[loser] > 0 { return; }
      surrender := surrender[loser := 0];
      var won := CheckWin(winner);
      if won { return; }
      EndTeam(loser, winner, home, d);
    }

    method EndTeam(loser: nat, winner: nat, home: int, d: Draw)
      requires WellFormed(Model()) && |d.gifts| == |planets| && home == Capital(planets, loser)
      modifies this
      ensures Model() == Genocide(old(Model()), loser, winner, d)
    {
      AddTroops(loser, winner, d);
      SameCapital(old(planets), planets, loser);
      KillTeam(loser);
      if home != -1 {
        planets := planets[home := planets[home].(coupTime := d.coupTime)];
      }
    }

    /** Counts every team's planets afresh, noting the loser's capital on the way. */
    method RecountFor(loser: nat) returns (home: int)
      requires WellFormed(Model())
      modifies `plcount
      ensures plcount == Census(planets) && home == Capital(planets, loser)
    {
      home := -1;
      plcount := seq(TEAMCODES, _ => 0);
      for i := 0 to |planets|
        invariant |plcount| == TEAMCODES
        invariant forall t :: 0 <= t < TEAMCODES ==> plcount[t] == CountOwned(planets[..i], t)
        invariant home == Capital(planets[..i], loser)
      {
        var owner := planets[i].owner;
        plcount := plcount[owner := plcount[owner] + 1];
        if planets[i].home == loser && planets[i].capital { home := i; }
        assert planets[..i + 1][..i] == planets[..i];
      }
      assert planets[..|planets|] == planets;
    }

    // ---- Beaming ----

    method Beam(draws: seq<Draw>)
      requires WellFormed(Model()) && |draws| == |ships|
      requires forall d :: d in draws ==> |d.gifts| == MAXPLANETS
      modifies this
      ensures Model() == BeamPass(old(Model()), cfg, 0, draws)
      ensures ArmyEffects.Pass(old(Model()), Model(), cfg, 0, draws)
    {
      ghost var after := ArmyEffects.BeamPassExactly(Model(), cfg, 0, draws);
      for i := 0 to |ships|
        invariant WellFormed(Model()) && |ships| == |draws|
        invariant BeamPass(Model(), cfg, i, draws) == BeamPass(old(Model()), cfg, 0, draws)
      {
        assert draws[i] in draws;
        var won := BeamOne(i, draws[i]);
        if won { return; }
      }
    }

    /** One ship's turn; true if it conquers the galaxy. */
    method BeamOne(i: nat, d: Draw) returns (won: bool)
      requires WellFormed(Model()) && i < |ships| && |d.gifts| == MAXPLANETS
      modifies this
      ensures (Model(), won) == BeamShip(old(Model()), cfg, i, d)
    {
      won := false;
      var j := ships[i];
      if !j.alive || !(j.orbit || j.dock) { return; }
      if j.beamUp {
        LoadUp(i);
        return;
      }
      if j.beamDown {
        won := Unload(i, d);
      }
    }

    method LoadUp(i: nat)
      requires WellFormed(Model()) && i < |ships| && (ships[i].orbit || ships[i].dock)
      modifies this
      ensures Model() == BeamUp(old(Model()), i)
    {
      var j := ships[i];
      var l := planets[j.planet];
      if j.orbit && l.armies < 5 { return; }
      if j.dock && ships[j.dockWith].armies < 1 { return; }
      if j.armies >= j.maxArmies { return; }
      if j.kind != Starbase && j.armies >= j.carry { return; }
      if j.orbit {
        if j.team != l.owner { return; }
        if l.owner in j.war { return; }
      }
      ships := ships[i := j.(armies := j.armies + 1)];
      if j.orbit {
        planets := planets[j.planet := l.(armies := l.armies - 1)];
      } else {
        var base := ships[j.dockWith];
        ships := ships[j.dockWith := base.(armies := base.armies - 1)];
      }
    }

    method Unload(i: nat, d: Draw) returns (won: bool)
      requires WellFormed(Model()) && i < |ships| && |d.gifts| == MAXPLANETS
      modifies this
      ensures (Model(), won) == BeamDown(old(Model()), cfg, i, d)
    {
      won := false;
      var j := ships[i];
      if j.armies == 0 { return; }
      if j.orbit {
        var l := planets[j.planet];
        if l.owner !in j.war && j.team != l.owner && l.owner != NOBODY { return; }
        if j.team != l.owner {
          won := LandArmy(i, d);
        } else {
          ships := ships[i := j.(armies := j.armies - 1)];
          planets := planets[j.planet := l.(armies := l.armies + 1)];
        }
      } else if j.dock {
        var base := ships[j.dockWith];
        if base.team != j.team || base.armies >= base.maxArmies { return; }
        ships := ships[i := j.(armies := j.armies - 1)];
        base := ships[j.dockWith];
        ships := ships[j.dockWith := base.(armies := base.armies + 1)];
      }
    }

    method LandArmy(i: nat, d: Draw) returns (won: bool)
      requires WellFormed(Model()) && i < |ships| && |d.gifts| == MAXPLANETS
      modifies this
      ensures (Model(), won) == Land(old(Model()), cfg, i, d)
    {
      won := false;
      var j := ships[i];
      var l := planets[j.planet];
      ships := ships[i := j.(armies := j.armies - 1)];
      if l.armies != 0 {
        planets := planets[j.planet := l.(armies := l.armies - 1)];
        attacks := attacks + 1;
        if planets[j.planet].armies == 0 {
          planets := planets[j.planet := planets[j.planet].(owner := NOBODY)];
          assert Model() == Attack(old(Model()), i);
          CheckGen(l.owner, j.team, d);
        }
      } else {
        planets := planets[j.planet := l.(armies := l.armies + 1, owner := j.team)];
        assert Model() == TakeOver(old(Model()), i);
        won := CheckWin(j.team);
      }
    }

    // ---- Population, fighting, surrender, ghosts ----

    method PopPlanet(p: nat, g: Growth)
      requires WellFormed(Model()) && p < |planets|
      modifies this
      ensures Model() == PutPlanet(old(Model()), p, Armies.PopPlanet(old(planets[p]), cfg, g))
    {
      var l := planets[p];
      if l.armies == 0 { return; }
      if l.armies >= cfg.maxPop && !cfg.tourn { return; }
      var armies := Plague(l.armies, g.plague);
      armies := Grow(armies, l.agri, g);
      planets := planets[p := l.(armies := armies)];
    }

    method Plague(before: int, roll: nat) returns (armies: int)
      ensures armies == if cfg.plague && before > 5 then before - PlagueLoss(before, roll) else before
    {
      armies := before;
      if cfg.plague {
        if armies > 5 {
          var lost := (roll + armies * armies) / 4500;
          if lost != 0 { armies := armies - lost; }
        }
      }
    }

    method Grow(before: int, agri: bool, g: Growth) returns (armies: int)
      ensures armies == Grown(before, agri, g)
    {
      armies := before;
      if armies < 4 {
        if g.weak { armies := armies + 1; }
        if agri { armies := armies + 1; }
      }
      if g.extra > 0 { armies := armies + g.extra; }
      if agri {
        if g.agri { armies := armies + 1; }
      }
    }

    method PlFight(rolls: seq<nat>)
      requires WellFormed(Model()) && |rolls| == |ships|
      modifies this
      ensures Model() == BombPass(old(Model()).(planets := OverthrowAll(old(planets))), |old(ships)|, rolls)
    {
      FinishCoups();
      ghost var fought := Model();
      for i := 0 to |ships|
        invariant WellFormed(Model()) && |ships| == |fought.ships|
        invariant Model() == BombPass(fought, i, rolls)
      {
        BombOne(i, rolls[i]);
      }
    }

    method FinishCoups()
      modifies `planets
      ensures planets == OverthrowAll(old(planets))
    {
      ghost var before := planets;
      for h := 0 to |planets|
        invariant |planets| == |before| && forall p :: h <= p < |before| ==> planets[p] == before[p]
        invariant forall p :: 0 <= p < h ==> planets[p] == Overthrow(before[p])
      {
        var l := planets[h];
        if l.coup {
          planets := planets[h := l.(coup := false, owner := l.home, armies := 4)];
        }
      }
    }

    method BombOne(i: nat, rnd: nat)
      requires WellFormed(Model()) && i < |ships|
      modifies this
      ensures Model() == Bomb(old(Model()), i, rnd)
    {
      var j := ships[i];
      if !j.alive { return; }
      if !j.orbit || !j.bomb { return; }
      var l := planets[j.planet];
      if j.team == l.owner { return; }
      if l.owner !in j.war { return; }
      if l.armies < 5 { return; }
      if rnd < 50 {
        assert planets[j.planet := l] == planets;
        return;
      }
      var ab := if rnd < 80 then 1 else if rnd < 90 then 2 else 3;
      if j.kind == Assault { ab := ab + 1; }
      planets := planets[j.planet := l.(armies := l.armies - ab)];
    }

    method UdSurrend(few: seq<bool>, coupTimes: seq<int>)
      requires WellFormed(Model()) && |few| == TEAMCODES && |coupTimes| == MAXPLANETS
      modifies this
      ensures var ticked := old(Model()).(planets := TickCoups(old(planets)));
              Model() == if cfg.tourn then SurrenderPass(ticked, cfg, TEAMCODES, few, coupTimes) else ticked
    {
      ghost var start := Model();
      for i := 0 to |planets|
        invariant Model() == start.(planets := planets) && |planets| == |start.planets|
        invariant forall p :: i <= p < |planets| ==> planets[p] == start.planets[p]
        invariant forall p :: 0 <= p < i ==> planets[p] == TickCoups(start.planets)[p]
      {
        if planets[i].coupTime != 0 {
          planets := planets[i := planets[i].(coupTime := planets[i].coupTime - 1)];
        }
      }
      ghost var ticked := start.(planets := TickCoups(start.planets));
      assert planets == ticked.planets;
      if !cfg.tourn { return; }
      for t := 0 to TEAMCODES
        invariant WellFormed(Model()) && Model() == SurrenderPass(ticked, cfg, t, few, coupTimes)
      {
        SurrenderMinute(t, few[t], coupTimes);
      }
    }

    method SurrenderMinute(t: nat, few: bool, coupTimes: seq<int>)
      requires WellFormed(Model()) && t < TEAMCODES && |coupTimes| == |planets|
      modifies this
      ensures Model() == SurrenderTick(old(Model()), cfg, t, few, coupTimes)
    {
      if surrender[t] == 0 || few { return; }
      if plcount[t] > cfg.surrenderStart { return; }
      surrender := surrender[t := surrender[t] - 1];
      if surrender[t] != 0 { return; }
      ghost var start := Model();
      for i := 0 to |planets|
        invariant Model() == start.(planets := planets) && |planets| == |start.planets|
        invariant forall p :: i <= p < |planets| ==> planets[p] == start.planets[p]
        invariant forall p :: 0 <= p < i ==> planets[p] == Neutralize(start, t, coupTimes).planets[p]
      {
        if planets[i].home == t && planets[i].capital {
          planets := planets[i := planets[i].(coupTime := coupTimes[i])];
        }
        if planets[i].owner == t {
          planets := planets[i := planets[i].(owner := NOBODY, armies := 0)];
        }
      }
      assert planets == Neutralize(start, t, coupTimes).planets;
      KillTeam(t);
    }

    method GhostMess(v: nat)
      requires WellFormed(Model()) && v < |ships|
      modifies this
      ensures Model() == Rescue(old(Model()), v)
    {
      if ships[v].observer { return; }
      if ships[v].armies <= 0 { return; }
      var k := HomeSpace(ships[v].team);
      if k < 0 { return; }
      for i := 0 to 10
        invariant unchanged(this)
        invariant OwnedIn(planets, ships[v].team, k, k + 10) == OwnedIn(planets, ships[v].team, k + i, k + 10)
      {
        if planets[k + i].owner == ships[v].team {
          var l := planets[k + i];
          planets := planets[k + i := l.(armies := l.armies + ships[v].armies)];
          ships := ships[v := ships[v].(armies := 0)];
          return;
        }
      }
    }
  }

  lemma {:induction false} CountSplits(a: seq<Planet>, b: seq<Planet>, t: nat)
    ensures CountOwned(a + b, t) == CountOwned(a, t) + CountOwned(b, t)
  {
    if b == [] {
      assert a + b == a;
    } else {
      assert (a + b)[..|a + b| - 1] == a + b[..|b| - 1];
      CountSplits(a, b[..|b| - 1], t);
    }
  }

  /** The team counters after some planets have been added to them. */
  ghost function Counted(planets: seq<Planet>, plcount: seq<int>): (r: seq<int>)
    requires |plcount| == TEAMCODES
    ensures |r| == TEAMCODES
  {
    seq(TEAMCODES, t requires 0 <= t < TEAMCODES => plcount[t] + CountOwned(planets, t))
  }

  lemma {:induction false} NoneCounted(planets: seq<Planet>, plcount: seq<int>)
    requires |plcount| == TEAMCODES
    ensures Counted(planets[..0], plcount) == plcount
  {
  }

  lemma {:induction false} CountedGrows(planets: seq<Planet>, plcount: seq<int>, i: nat)
    requires |planets| == MAXPLANETS && |plcount| == TEAMCODES && i < 4
    ensures Counted(System(planets, i), Counted(planets[..10 * i], plcount)) == Counted(planets[..10 * (i + 1)], plcount)
  {
    forall t: nat | t < TEAMCODES
      ensures CountOwned(planets[..10 * (i + 1)], t) == CountOwned(planets[..10 * i], t) + CountOwned(System(planets, i), t)
    {
      CountSplits(planets[..10 * i], System(planets, i), t);
      assert planets[..10 * i] + System(planets, i) == planets[..10 * (i + 1)];
    }
  }

  lemma {:induction false} AllCounted(planets: seq<Planet>, before: seq<int>, cleared: seq<int>)
    requires |planets| == MAXPLANETS && |before| == |cleared| == TEAMCODES
    requires forall t :: 0 <= t < TEAMCODES ==> cleared[t] == if t == NOBODY || t in TEAMS then 0 else before[t]
    ensures Counted(planets[..40], cleared) == Tally(planets, before)
  {
    assert planets[..40] == planets;
  }

  /** Gifts of armies do not change which planet is a team's capital. */
  lemma {:induction false} SameCapital(a: seq<Planet>, b: seq<Planet>, t: nat)
    requires |a| == |b|
    requires forall p :: 0 <= p < |a| ==> a[p].home == b[p].home && a[p].capital == b[p].capital
    ensures Capital(a, t) == Capital(b, t)
  {
    if a != [] { SameCapital(a[..|a| - 1], b[..|b| - 1], t); }
  }
}
