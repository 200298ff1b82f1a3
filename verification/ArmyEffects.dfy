/** What the army rules do, field by field: counts and the census, one ship's turn of beaming, a whole
    beaming pass, bombing, coups, growth, surrender and rescue. */
module ArmyEffects {
  import opened Armies
  import opened ArmySafety

  // ---- Counting ----

  ghost function OwnedBy(planets: seq<Planet>, t: nat): set<int> {
    set p | 0 <= p < |planets| && planets[p].owner == t
  }

  lemma {:induction false} CountOwnedIs(planets: seq<Planet>, t: nat)
    ensures CountOwned(planets, t) == |OwnedBy(planets, t)|
  {
    if planets == [] {
      assert OwnedBy(planets, t) == {};
    } else {
      var n := |planets| - 1;
      var less := OwnedBy(planets[..n], t);
      CountOwnedIs(planets[..n], t);
      assert n !in less;
      assert OwnedBy(planets, t) == if planets[n].owner == t then less + {n} else less;
    }
  }

  ghost function PlayersOf(ships: seq<Ship>, t: nat): set<int> {
    set i | 0 <= i < |ships| && !ships[i].free && ships[i].team == t
  }

  lemma {:induction false} CountPlayersIs(ships: seq<Ship>, t: nat)
    ensures CountPlayers(ships, t) == |PlayersOf(ships, t)|
  {
    if ships == [] {
      assert PlayersOf(ships, t) == {};
    } else {
      var n := |ships| - 1;
      var less := PlayersOf(ships[..n], t);
      CountPlayersIs(ships[..n], t);
      assert n !in less;
      assert PlayersOf(ships, t) == if !ships[n].free && ships[n].team == t then less + {n} else less;
    }
  }

  // ---- Victory ----

  /** No rival of team t has one of the ten planets from 10 * i on, and t has one, unless t is ORI. */
  ghost predicate HoldsSystem(planets: seq<Planet>, i: nat, t: nat)
    requires |planets| == 40 && i < 4
  {
    && (forall p :: 10 * i <= p < 10 * i + 10 ==> planets[p].owner == t || planets[p].owner !in {1, 2, 4, 8})
    && (t == 8 || exists p :: 10 * i <= p < 10 * i + 10 && planets[p].owner == t)
  }

  ghost predicate HoldsThree(planets: seq<Planet>, t: nat, out: nat)
    requires |planets| == 40
  {
    forall i :: 0 <= i < 4 && i != out ==> HoldsSystem(planets, i, t)
  }

  /** The galaxy is won exactly when a team holds three of the four home systems. */
  lemma {:induction false} VictoryExactly(planets: seq<Planet>)
    requires |planets| == MAXPLANETS
    ensures Victory(planets) <==> exists t: nat, out: nat :: t in {1, 2, 4, 8} && out < 4 && HoldsThree(planets, t, out)
  {
    VictoryIsThreeSystems(planets);
    forall i: nat, t: nat | i < 4 && t in {1, 2, 4, 8}
      ensures CountsFor(planets, i, t) == HoldsSystem(planets, i, t)
    {
      SystemHeldExactly(planets, i, t);
    }
    if t: nat, out: nat :| t in {1, 2, 4, 8} && out < 4 && HoldsThree(planets, t, out) {
      assert t in TEAMS && AllBut(planets, out, t);
    }
    if t: nat, out: nat :| t in TEAMS && out < 4 && AllBut(planets, out, t) {
      assert t in {1, 2, 4, 8} && HoldsThree(planets, t, out);
    }
  }

  lemma {:induction false} SystemHeldExactly(planets: seq<Planet>, i: nat, t: nat)
    requires |planets| == MAXPLANETS && i < 4 && t in {1, 2, 4, 8}
    ensures CountsFor(planets, i, t) <==> HoldsSystem(planets, i, t)
  {
    var ten := System(planets, i);
    SystemCountsFor(ten, t);
    assert forall p :: 10 * i <= p < 10 * i + 10 ==> ten[p - 10 * i] == planets[p];
    assert forall q :: 0 <= q < 10 ==> ten[q] == planets[10 * i + q];
    if CountsFor(planets, i, t) {
      forall p | 10 * i <= p < 10 * i + 10
        ensures planets[p].owner == t || planets[p].owner !in {1, 2, 4, 8}
      {
        var u := planets[p].owner;
        if u in TEAMS && u != t { assert !Owns(ten, u) && ten[p - 10 * i].owner == u; }
      }
      if t != 8 {
        var q :| 0 <= q < 10 && ten[q].owner == t;
        assert planets[10 * i + q].owner == t;
      }
    }
  }

  // ---- The census, and the end of a race ----

  /** The counters of nobody and of the four teams. */
  ghost predicate Counted(w: World) {
    |w.plcount| == 16 && forall t :: t in {0, 1, 2, 4, 8} ==> w.plcount[t] == |OwnedBy(w.planets, t)|
  }

  ghost predicate Won(planets: seq<Planet>)
    requires |planets| == 40
  {
    exists t: nat, out: nat :: t in {1, 2, 4, 8} && out < 4 && HoldsThree(planets, t, out)
  }

  /** checkwin: outside INL games a recount, the end of the winner's countdown at four planets, and
      whether the galaxy is won. */
  lemma {:induction false} CheckWinExactly(w: World, cfg: Config, winner: nat)
    requires WellFormed(w) && winner < TEAMCODES
    ensures var (w', won) := CheckWin(w, cfg, winner);
            if cfg.inl then w' == w && !won
            else
              && w' == w.(plcount := w'.plcount, surrender := w'.surrender)
              && Counted(w') && (won <==> Won(w.planets))
              && forall t: nat :: t < 16 ==>
                   w'.surrender[t] == if t == winner && w.surrender[t] > 0 && w'.plcount[t] == 4 then 0 else w.surrender[t]
  {
    VictoryExactly(w.planets);
    forall t: nat | t in {0, 1, 2, 4, 8}
      ensures CountOwned(w.planets, t) == |OwnedBy(w.planets, t)|
    {
      CountOwnedIs(w.planets, t);
    }
  }

  /** The last planet that is the capital of team t. */
  ghost predicate LastCapital(planets: seq<Planet>, t: nat, p: nat) {
    && p < |planets| && planets[p].home == t && planets[p].capital
    && forall q :: p < q < |planets| ==> !(planets[q].home == t && planets[q].capital)
  }

  lemma {:induction false} CapitalExactly(planets: seq<Planet>, t: nat)
    ensures var h := Capital(planets, t);
            forall p: nat :: p < |planets| ==> (LastCapital(planets, t, p) <==> h == p)
  {
    if planets != [] {
      var n := |planets| - 1;
      CapitalExactly(planets[..n], t);
      forall p: nat | p < |planets|
        ensures LastCapital(planets, t, p) <==> Capital(planets, t) == p
      {
        if p < n && !(planets[n].home == t && planets[n].capital) {
          assert LastCapital(planets[..n], t, p) <==> LastCapital(planets, t, p) by {
            assert forall q :: 0 <= q < n ==> planets[..n][q] == planets[q];
          }
        }
      }
    }
  }

  /** What addTroops adds to a planet. */
  ghost function Drawn(w: World, loser: nat, winner: nat, d: Draw, p: nat): int
    requires p < |w.planets| == |d.gifts|
  {
    var count := |PlayersOf(w.ships, loser)|;
    if w.planets[p].owner == winner && (count >= 6 || (count >= 3 && d.pass % count != 0)) then d.gifts[p] % (2 * count) else 0
  }

  /** The end of a race: everybody on it dies, its last capital gets a coup timer, and the planets of the
      winner get what is drawn; nothing else changes. */
  ghost predicate RaceEnds(w: World, w': World, loser: nat, winner: nat, d: Draw)
    requires |w.planets| == |d.gifts|
  {
    && |w'.planets| == |w.planets| && |w'.ships| == |w.ships|
    && w' == w.(planets := w'.planets, ships := w'.ships, granted := w'.granted)
    && (forall i :: 0 <= i < |w.ships| ==> w'.ships[i] == w.ships[i].(alive := w.ships[i].alive && w.ships[i].team != loser))
    && forall p :: 0 <= p < |w.planets| ==>
         w'.planets[p] == w.planets[p].(
           armies := w.planets[p].armies + Drawn(w, loser, winner, d, p),
           coupTime := if LastCapital(w.planets, loser, p) then d.coupTime else w.planets[p].coupTime)
  }

  lemma {:induction false} GenocideExactly(w: World, loser: nat, winner: nat, d: Draw)
    requires WellFormed(w) && |d.gifts| == |w.planets|
    ensures RaceEnds(w, Genocide(w, loser, winner, d), loser, winner, d)
  {
    var given := GivenExactly(w, loser, winner, d);
    var timed := TimerExactly(given.planets, loser, d.coupTime);
    SameCapitals(w.planets, given.planets, loser);
    var w' := Genocide(w, loser, winner, d);
    assert w' == given.(ships := KillTeam(given.ships, loser), planets := timed);
    forall p | 0 <= p < |w.planets|
      ensures w'.planets[p] == w.planets[p].(
                armies := w.planets[p].armies + Drawn(w, loser, winner, d, p),
                coupTime := if LastCapital(w.planets, loser, p) then d.coupTime else w.planets[p].coupTime)
    {
      assert timed[p] == given.planets[p].(coupTime := timed[p].coupTime);
    }
  }

  /** The coup timer of the last capital is set. */
  lemma {:induction false} TimerExactly(planets: seq<Planet>, t: nat, time: int) returns (r: seq<Planet>)
    ensures var h := Capital(planets, t); r == if h == -1 then planets else planets[h := planets[h].(coupTime := time)]
    ensures |r| == |planets|
    ensures forall p :: 0 <= p < |planets| ==>
              r[p] == planets[p].(coupTime := if LastCapital(planets, t, p) then time else planets[p].coupTime)
  {
    var h := Capital(planets, t);
    r := if h == -1 then planets else planets[h := planets[h].(coupTime := time)];
    CapitalExactly(planets, t);
  }

  lemma {:induction false} GivenExactly(w: World, loser: nat, winner: nat, d: Draw) returns (given: World)
    requires WellFormed(w) && |d.gifts| == |w.planets|
    ensures given == AddTroops(w, loser, winner, d) && |given.planets| == |w.planets|
    ensures given == w.(planets := given.planets, granted := given.granted)
    ensures forall p :: 0 <= p < |w.planets| ==>
              given.planets[p] == w.planets[p].(armies := w.planets[p].armies + Drawn(w, loser, winner, d, p))
  {
    given := AddTroops(w, loser, winner, d);
    CountPlayersIs(w.ships, loser);
    forall p | 0 <= p < |w.planets|
      ensures given.planets[p] == w.planets[p].(armies := w.planets[p].armies + Drawn(w, loser, winner, d, p))
    {
      TroopsForWinnersOnly(w, loser, winner, d, p);
    }
  }

  lemma {:induction false} SameCapitals(planets: seq<Planet>, planets': seq<Planet>, t: nat)
    requires |planets| == |planets'|
    requires forall p :: 0 <= p < |planets| ==> planets'[p].home == planets[p].home && planets'[p].capital == planets[p].capital
    ensures forall p: nat :: p < |planets| ==> (LastCapital(planets, t, p) <==> LastCapital(planets', t, p))
  {
  }

  /** The countdown of a race that has just lost a planet. */
  ghost predicate ClockStarts(w: World, w': World, cfg: Config, loser: nat)
    requires |w.surrender| == |w'.surrender| == 16 && loser < 16
  {
    forall t: nat :: t < 16 ==>
      w'.surrender[t] == if t == loser && w.surrender[t] == 0 && |OwnedBy(w.planets, t)| == cfg.surrenderStart
                         then cfg.minutes else w.surrender[t]
  }

  /** checkgen: nothing in INL games; otherwise the counters are those of the planets, and
      - while the loser has planets left, its countdown starts when it is down to the given number;
      - without planets, its countdown stops, the winner's does at four planets, and unless the galaxy
        is won the race ends. */
  ghost predicate Censused(w: World, w': World, cfg: Config, loser: nat, winner: nat, d: Draw)
    requires |w.planets| == |d.gifts| == 40 && |w.surrender| == |w'.surrender| == 16 && loser < 16
  {
    if cfg.inl then w' == w
    else
      && Counted(w')
      && if OwnedBy(w.planets, loser) != {} then
           && w' == w.(plcount := w'.plcount, surrender := w'.surrender) && ClockStarts(w, w', cfg, loser)
         else
           && (forall t: nat :: t < 16 ==>
                 w'.surrender[t] == if t == loser || (t == winner && w.surrender[t] > 0 && w'.plcount[t] == 4) then 0
                                    else w.surrender[t])
           && var still := w.(plcount := w'.plcount, surrender := w'.surrender);
              if Won(w.planets) then w' == still else RaceEnds(still, w', loser, winner, d)
  }

  lemma {:induction false} CheckGenExactly(w: World, cfg: Config, loser: nat, winner: nat, d: Draw)
    requires WellFormed(w) && loser < TEAMCODES && winner < TEAMCODES && |d.gifts| == |w.planets|
    ensures Censused(w, CheckGen(w, cfg, loser, winner, d), cfg, loser, winner, d)
  {
    CountOwnedIs(w.planets, loser);
    if !cfg.inl {
      var clock := Recounted(w, cfg, loser);
      RecountedIs(w, cfg, loser);
      if clock.plcount[loser] <= 0 {
        var stopped := clock.(surrender := clock.surrender[loser := 0]);
        var checked := CheckWin(stopped, cfg, winner);
        CheckWinExactly(stopped, cfg, winner);
        GenocideExactly(checked.0, loser, winner, d);
        OwnersStay(checked.0, Genocide(checked.0, loser, winner, d), loser, winner, d);
      }
    }
  }

  lemma {:induction false} RecountedIs(w: World, cfg: Config, loser: nat)
    requires WellFormed(w) && loser < TEAMCODES
    ensures var r := Recounted(w, cfg, loser);
            && r == w.(plcount := r.plcount, surrender := r.surrender) && Counted(r) && ClockStarts(w, r, cfg, loser)
            && r.plcount[loser] == |OwnedBy(w.planets, loser)|
  {
    forall t: nat | t < TEAMCODES
      ensures CountOwned(w.planets, t) == |OwnedBy(w.planets, t)|
    {
      CountOwnedIs(w.planets, t);
    }
  }

  lemma {:induction false} OwnersStay(w: World, w': World, loser: nat, winner: nat, d: Draw)
    requires |w.planets| == |d.gifts| && RaceEnds(w, w', loser, winner, d)
    ensures forall t: nat :: OwnedBy(w'.planets, t) == OwnedBy(w.planets, t)
  {
  }

  // ---- One ship's turn of beaming ----

  /** A ship takes on an army: in orbit, from a planet of its own team that it is not at war with and
      that has at least five; docked, from a base that has one; below its maximum, and, unless it is a
      base, below what its kills allow. */
  predicate MayLoad(w: World, i: nat)
    requires i < |w.ships| && w.ships[i].planet < |w.planets| && w.ships[i].dockWith < |w.ships|
  {
    var j, l := w.ships[i], w.planets[w.ships[i].planet];
    && j.armies < j.maxArmies && (j.kind != Starbase ==> j.armies < j.carry)
    && (j.orbit ==> j.team == l.owner && l.owner !in j.war && l.armies >= 5)
    && (j.dock ==> w.ships[j.dockWith].armies >= 1)
  }

  /** Ship i has `up` armies more, and its planet is `l` now. */
  function WithPlanet(w: World, i: nat, up: int, l: Planet): World
    requires i < |w.ships| && w.ships[i].planet < |w.planets|
  {
    w.(ships := w.ships[i := w.ships[i].(armies := w.ships[i].armies + up)],
       planets := w.planets[w.ships[i].planet := l])
  }

  /** Ship i has `up` armies more, and its base as many fewer. */
  ghost predicate WithBase(w: World, w': World, i: nat, up: int)
    requires i < |w.ships|
  {
    && |w'.ships| == |w.ships| && w' == w.(ships := w'.ships)
    && forall n :: 0 <= n < |w.ships| ==>
         w'.ships[n] == w.ships[n].(armies := w.ships[n].armies + (if n == i then up else 0)
                                              - if n == w.ships[i].dockWith then up else 0)
  }

  ghost predicate LoadTurn(w: World, w': World, i: nat)
    requires i < |w.ships| && w.ships[i].planet < |w.planets| && w.ships[i].dockWith < |w.ships|
  {
    var l := w.planets[w.ships[i].planet];
    if !MayLoad(w, i) then w' == w
    else if w.ships[i].orbit then w' == WithPlanet(w, i, 1, l.(armies := l.armies - 1))
    else WithBase(w, w', i, 1)
  }

  /** An army has been put down on a planet that is not the ship's own: an empty one is taken over; a
      garrison loses one, and the planet its owner with the last. */
  function Landed(w: World, i: nat): World
    requires i < |w.ships| && w.ships[i].planet < |w.planets|
  {
    var j, l := w.ships[i], w.planets[w.ships[i].planet];
    if l.armies == 0 then WithPlanet(w, i, -1, l.(armies := 1, owner := j.team))
    else if l.armies == 1 then WithPlanet(w, i, -1, l.(armies := 0, owner := 0)).(attacks := w.attacks + 1)
    else WithPlanet(w, i, -1, l.(armies := l.armies - 1)).(attacks := w.attacks + 1)
  }

  /** What follows a landing: a recount and the question of victory, the census, or nothing. */
  ghost predicate LandTurn(w: World, w': World, won: bool, cfg: Config, i: nat, d: Draw)
    requires WellFormed(w) && i < |w.ships| && |d.gifts| == 40
  {
    var j, l, landed := w.ships[i], w.planets[w.ships[i].planet], Landed(w, i);
    if l.armies == 0 then
      if cfg.inl then w' == landed && !won
      else
        && |w'.surrender| == 16 && w' == landed.(plcount := w'.plcount, surrender := w'.surrender)
        && Counted(w') && (won <==> Won(landed.planets))
        && forall t: nat :: t < 16 ==>
             w'.surrender[t] == if t == j.team && w.surrender[t] > 0 && w'.plcount[t] == 4 then 0 else w.surrender[t]
    else if l.armies == 1 then !won && |w'.surrender| == 16 && Censused(landed, w', cfg, l.owner, j.team, d)
    else w' == landed && !won
  }

  ghost predicate UnloadTurn(w: World, w': World, won: bool, cfg: Config, i: nat, d: Draw)
    requires WellFormed(w) && i < |w.ships| && |d.gifts| == 40
  {
    var j, l, base := w.ships[i], w.planets[w.ships[i].planet], w.ships[w.ships[i].dockWith];
    if j.armies == 0 then w' == w && !won
    else if j.orbit then
      if j.team == l.owner then w' == WithPlanet(w, i, -1, l.(armies := l.armies + 1)) && !won
      else if l.owner == 0 || l.owner in j.war then LandTurn(w, w', won, cfg, i, d)
      else w' == w && !won
    else
      && !won
      && if base.team == j.team && base.armies < base.maxArmies then WithBase(w, w', i, -1) else w' == w
  }

  /** One ship's turn in beam(); `won` ends the pass. */
  ghost predicate BeamTurn(w: World, w': World, won: bool, cfg: Config, i: nat, d: Draw)
    requires WellFormed(w) && i < |w.ships| && |d.gifts| == 40
  {
    var j := w.ships[i];
    if !j.alive || !(j.orbit || j.dock) || !(j.beamUp || j.beamDown) then w' == w && !won
    else if j.beamUp then LoadTurn(w, w', i) && !won
    else UnloadTurn(w, w', won, cfg, i, d)
  }

  lemma {:induction false} LandExactly(w: World, cfg: Config, i: nat, d: Draw)
    requires WellFormed(w) && i < |w.ships| && |d.gifts| == |w.planets|
    ensures var (w', won) := Land(w, cfg, i, d);
            LandTurn(w, w', won, cfg, i, d)
  {
    var j, l := w.ships[i], w.planets[w.ships[i].planet];
    if l.armies == 0 {
      assert TakeOver(w, i) == Landed(w, i);
      CheckWinExactly(TakeOver(w, i), cfg, j.team);
    } else {
      AttackExactly(w, i);
      if l.armies == 1 { CheckGenExactly(Attack(w, i), cfg, l.owner, j.team, d); }
    }
  }

  lemma {:induction false} AttackExactly(w: World, i: nat)
    requires WellFormed(w) && i < |w.ships| && w.planets[w.ships[i].planet].armies != 0
    ensures Attack(w, i) == Landed(w, i)
  {
  }

  lemma {:induction false} ArmiesPut(ships: seq<Ship>, i: nat, up: int, n: nat) returns (r: seq<Ship>)
    requires i < |ships| && n < |ships|
    ensures r == ships[i := ships[i].(armies := ships[i].armies + up)]
    ensures r[n] == ships[n].(armies := ships[n].armies + if n == i then up else 0)
  {
    r := ships[i := ships[i].(armies := ships[i].armies + up)];
  }

  lemma {:induction false} BoardedExactly(ships: seq<Ship>, i: nat, k: nat, up: int, n: nat)
    requires i < |ships| && k < |ships| && n < |ships|
    ensures Boarded(ships, i, k, up)[n]
            == ships[n].(armies := ships[n].armies + (if n == i then up else 0) - if n == k then up else 0)
  {
    var boarded := ArmiesPut(ships, i, up, n);
    var r := ArmiesPut(boarded, k, -up, n);
    assert boarded[k].armies + -up == boarded[k].armies - up;
    assert r == Boarded(ships, i, k, up);
  }

  lemma {:induction false} TransferExactly(w: World, i: nat, up: int)
    requires WellFormed(w) && i < |w.ships|
    ensures WithBase(w, Transfer(w, i, up), i, up)
  {
    forall n | 0 <= n < |w.ships|
      ensures Boarded(w.ships, i, w.ships[i].dockWith, up)[n]
              == w.ships[n].(armies := w.ships[n].armies + (if n == i then up else 0) - if n == w.ships[i].dockWith then up else 0)
    {
      BoardedExactly(w.ships, i, w.ships[i].dockWith, up, n);
    }
  }

  lemma {:induction false} ExchangeExactly(w: World, i: nat, up: int)
    requires WellFormed(w) && i < |w.ships|
    ensures var l := w.planets[w.ships[i].planet];
            Exchange(w, i, up) == WithPlanet(w, i, up, l.(armies := l.armies - up))
  {
  }

  lemma {:induction false} LoadTurnExactly(w: World, i: nat) returns (w': World)
    requires WellFormed(w) && i < |w.ships| && (w.ships[i].orbit || w.ships[i].dock)
    ensures w' == BeamUp(w, i) && LoadTurn(w, w', i)
  {
    w' := BeamUp(w, i);
    if w.ships[i].orbit { ExchangeExactly(w, i, 1); } else { TransferExactly(w, i, 1); }
  }

  lemma {:induction false} UnloadTurnExactly(w: World, cfg: Config, i: nat, d: Draw) returns (r: (World, bool))
    requires WellFormed(w) && i < |w.ships| && |d.gifts| == |w.planets| && (w.ships[i].orbit || w.ships[i].dock)
    ensures r == BeamDown(w, cfg, i, d) && UnloadTurn(w, r.0, r.1, cfg, i, d)
  {
    r := BeamDown(w, cfg, i, d);
    var j, l := w.ships[i], w.planets[w.ships[i].planet];
    if j.orbit && j.team != l.owner {
      LandExactly(w, cfg, i, d);
    } else if j.orbit {
      ExchangeExactly(w, i, -1);
    } else {
      TransferExactly(w, i, -1);
    }
  }

  lemma {:induction false} ShipTurnExactly(w: World, cfg: Config, i: nat, d: Draw) returns (r: (World, bool))
    requires WellFormed(w) && i < |w.ships| && |d.gifts| == |w.planets|
    ensures r == BeamShip(w, cfg, i, d) && BeamTurn(w, r.0, r.1, cfg, i, d)
  {
    r := BeamShip(w, cfg, i, d);
    var j := w.ships[i];
    if j.alive && (j.orbit || j.dock) {
      if j.beamUp {
        var w' := LoadTurnExactly(w, i);
      } else if j.beamDown {
        var r' := UnloadTurnExactly(w, cfg, i, d);
      }
    }
  }

  // ---- A whole pass ----

  /** The ships' turns in slot order, from ship i on, each from the state the one before left, up to the
      turn that wins the galaxy or the last one. */
  ghost predicate Pass(w: World, w': World, cfg: Config, i: nat, draws: seq<Draw>)
    requires WellFormed(w) && i <= |w.ships| == |draws| && forall d :: d in draws ==> |d.gifts| == 40
    decreases |draws| - i
  {
    if i == |draws| then w' == w
    else
      assert draws[i] in draws;
      exists next: World, won: bool ::
        && BeamTurn(w, next, won, cfg, i, draws[i]) && WellFormed(next) && |next.ships| == |draws|
        && if won then w' == next else Pass(next, w', cfg, i + 1, draws)
  }

  /** Main result: a beaming pass is the ships' turns. */
  lemma {:induction false} BeamPassExactly(w: World, cfg: Config, i: nat, draws: seq<Draw>) returns (w': World)
    requires WellFormed(w) && i <= |w.ships| == |draws| && forall d :: d in draws ==> |d.gifts| == 40
    ensures w' == BeamPass(w, cfg, i, draws) && Pass(w, w', cfg, i, draws)
    decreases |draws| - i
  {
    if i == |w.ships| {
      w' := w;
    } else {
      assert draws[i] in draws;
      var turn := ShipTurnExactly(w, cfg, i, draws[i]);
      if turn.1 { w' := turn.0; } else { w' := BeamPassExactly(turn.0, cfg, i + 1, draws); }
    }
  }

  /** Who owns what after a landing: an empty planet goes to the team of the ship, with one army; a
      garrison loses one army, and the planet its owner exactly with the last; no other planet changes
      hands; and the ship has one army less. */
  lemma {:induction false} LandingShows(w: World, cfg: Config, i: nat, d: Draw)
    requires WellFormed(w) && i < |w.ships| && |d.gifts| == |w.planets|
    requires var j, l := w.ships[i], w.planets[w.ships[i].planet];
             && j.alive && j.orbit && !j.beamUp && j.beamDown && j.armies != 0
             && j.team != l.owner && (l.owner == NOBODY || l.owner in j.war)
    ensures var w', j, p := BeamShip(w, cfg, i, d).0, w.ships[i], w.ships[i].planet;
            var l, l' := w.planets[p], w'.planets[p];
            && w'.ships[i].armies == j.armies - 1
            && (l.armies == 0 ==> l'.owner == j.team && l'.armies == 1)
            && (l.armies != 0 ==> l'.owner == if l.armies == 1 then NOBODY else l.owner)
            && (l.armies != 0 && (l.armies != 1 || j.team != NOBODY) ==> l'.armies == l.armies - 1)
            && forall q :: 0 <= q < |w.planets| && q != p ==> w'.planets[q].owner == w.planets[q].owner
  {
    var w' := LandShows(w, cfg, i, d);
    LandingIs(w, cfg, i, d);
  }

  lemma {:induction false} LandingIs(w: World, cfg: Config, i: nat, d: Draw)
    requires WellFormed(w) && i < |w.ships| && |d.gifts| == |w.planets|
    requires var j, l := w.ships[i], w.planets[w.ships[i].planet];
             && j.alive && j.orbit && !j.beamUp && j.beamDown && j.armies != 0
             && j.team != l.owner && (l.owner == NOBODY || l.owner in j.war)
    ensures BeamShip(w, cfg, i, d) == Land(w, cfg, i, d)
  {
  }

  lemma {:induction false} LandShows(w: World, cfg: Config, i: nat, d: Draw) returns (w': World)
    requires WellFormed(w) && i < |w.ships| && |d.gifts| == |w.planets|
    ensures w' == Land(w, cfg, i, d).0 && |w'.planets| == |w.planets| && |w'.ships| == |w.ships|
    ensures var landed, p := Landed(w, i), w.ships[i].planet;
            && w'.ships[i].armies == landed.ships[i].armies
            && (forall q :: 0 <= q < |w.planets| ==> w'.planets[q].owner == landed.planets[q].owner)
            && (w.planets[p].armies != 1 || w.ships[i].team != NOBODY ==> w'.planets[p].armies == landed.planets[p].armies)
  {
    var l := w.planets[w.ships[i].planet];
    LandExactly(w, cfg, i, d);
    w' := Land(w, cfg, i, d).0;
    if l.armies == 1 { CensusKeepsOwners(Landed(w, i), w', cfg, l.owner, w.ships[i].team, d); }
  }

  lemma {:induction false} CensusKeepsOwners(w: World, w': World, cfg: Config, loser: nat, winner: nat, d: Draw)
    requires |w.planets| == |d.gifts| == 40 && |w.surrender| == |w'.surrender| == 16 && loser < 16
    requires Censused(w, w', cfg, loser, winner, d)
    ensures |w'.planets| == |w.planets| && |w'.ships| == |w.ships|
    ensures forall p :: 0 <= p < |w.planets| ==>
              && w'.planets[p].owner == w.planets[p].owner
              && (w.planets[p].owner != winner ==> w'.planets[p].armies == w.planets[p].armies)
    ensures forall i :: 0 <= i < |w.ships| ==> w'.ships[i].armies == w.ships[i].armies
  {
  }

  /** An army put down on the ship's own planet joins its garrison. */
  lemma {:induction false} ReinforcementShows(w: World, cfg: Config, i: nat, d: Draw)
    requires WellFormed(w) && i < |w.ships| && |d.gifts| == |w.planets|
    requires var j, l := w.ships[i], w.planets[w.ships[i].planet];
             j.alive && j.orbit && !j.beamUp && j.beamDown && j.armies != 0 && j.team == l.owner
    ensures var w', p := BeamShip(w, cfg, i, d).0, w.ships[i].planet;
            && w'.planets == w.planets[p := w.planets[p].(armies := w.planets[p].armies + 1)]
            && w'.ships == w.ships[i := w.ships[i].(armies := w.ships[i].armies - 1)]
  {
    var r := ShipTurnExactly(w, cfg, i, d);
  }

  /** A ship's load rises exactly when it beams up and may. */
  lemma {:induction false} LoadRisesExactly(w: World, cfg: Config, i: nat, d: Draw)
    requires WellFormed(w) && i < |w.ships| && |d.gifts| == |w.planets| && w.ships[i].dockWith != i
    ensures var j := w.ships[i];
            BeamShip(w, cfg, i, d).0.ships[i].armies > j.armies
            <==> j.alive && (j.orbit || j.dock) && j.beamUp && MayLoad(w, i)
  {
    var j := w.ships[i];
    if j.alive && (j.orbit || j.dock) {
      if j.beamUp {
        var w' := LoadTurnExactly(w, i);
      } else if j.beamDown {
        DownNeverRises(w, cfg, i, d);
      }
    }
  }

  lemma {:induction false} DownNeverRises(w: World, cfg: Config, i: nat, d: Draw)
    requires WellFormed(w) && i < |w.ships| && |d.gifts| == |w.planets| && w.ships[i].dockWith != i
    requires w.ships[i].orbit || w.ships[i].dock
    ensures BeamDown(w, cfg, i, d).0.ships[i].armies <= w.ships[i].armies
  {
    var j, l := w.ships[i], w.planets[w.ships[i].planet];
    if j.orbit && j.team != l.owner {
      var w' := LandShows(w, cfg, i, d);
    } else if j.orbit {
      ExchangeExactly(w, i, -1);
    } else {
      TransferExactly(w, i, -1);
    }
  }
}
