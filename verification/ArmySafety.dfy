/** What the army rules keep: no planet is empty unless nobody owns it, ships carry no more than
    they can, and a beaming pass conserves armies except for losses in landings and gifts. */
module ArmySafety {
  import opened Armies

  /** A planet has no armies exactly when nobody owns it. */
  predicate PlanetOk(l: Planet) {
    && l.armies >= 0 && (l.armies == 0 <==> l.owner == NOBODY)
    && (l.owner == NOBODY || l.owner in TEAMS)
    && (l.capital ==> l.home in TEAMS) && (l.coup ==> l.capital)
  }

  /** A ship carries between none and its maximum; only ships of a real team carry or dock. */
  predicate ShipOk(s: Ship) {
    && 0 <= s.armies <= s.maxArmies
    && (s.team in TEAMS || (s.armies == 0 && !s.dock))
  }

  ghost predicate PlanetsOk(planets: seq<Planet>) {
    forall p :: 0 <= p < |planets| ==> PlanetOk(planets[p])
  }

  ghost predicate ShipsOk(ships: seq<Ship>) {
    forall i :: 0 <= i < |ships| ==> ShipOk(ships[i])
  }

  ghost predicate Sound(w: World) {
    WellFormed(w) && PlanetsOk(w.planets) && ShipsOk(w.ships)
  }

  // ---- Totals ----

  function OnPlanets(planets: seq<Planet>): int {
    if planets == [] then 0 else OnPlanets(planets[..|planets| - 1]) + planets[|planets| - 1].armies
  }

  function OnShips(ships: seq<Ship>): int {
    if ships == [] then 0 else OnShips(ships[..|ships| - 1]) + ships[|ships| - 1].armies
  }

  function Total(w: World): int {
    OnPlanets(w.planets) + OnShips(w.ships)
  }

  /** Armies in the galaxy, plus those lost in landings, minus those given. */
  function Ledger(w: World): int {
    Total(w) + 2 * w.attacks - w.granted
  }

  lemma {:induction false} PlanetChange(planets: seq<Planet>, p: nat, l: Planet)
    requires p < |planets|
    ensures OnPlanets(planets[p := l]) == OnPlanets(planets) - planets[p].armies + l.armies
  {
    var n := |planets| - 1;
    assert planets[p := l][..n] == if p < n then planets[..n][p := l] else planets[..n];
    if p < n { PlanetChange(planets[..n], p, l); }
  }

  lemma {:induction false} ShipChange(ships: seq<Ship>, i: nat, s: Ship)
    requires i < |ships|
    ensures OnShips(ships[i := s]) == OnShips(ships) - ships[i].armies + s.armies
  {
    var n := |ships| - 1;
    assert ships[i := s][..n] == if i < n then ships[..n][i := s] else ships[..n];
    if i < n { ShipChange(ships[..n], i, s); }
  }

  lemma {:induction false} KillKeepsArmies(ships: seq<Ship>, t: nat)
    ensures OnShips(KillTeam(ships, t)) == OnShips(ships)
  {
    if ships != [] {
      var n := |ships| - 1;
      assert KillTeam(ships, t)[..n] == KillTeam(ships[..n], t);
      KillKeepsArmies(ships[..n], t);
    }
  }

  /** The planets after the gifts. */
  ghost function Given(planets: seq<Planet>, winner: nat, gifts: seq<nat>, count: nat): (r: seq<Planet>)
    requires |gifts| == |planets| && count > 0
    ensures |r| == |planets|
  {
    seq(|planets|, p requires 0 <= p < |planets| =>
      planets[p].(armies := planets[p].armies + Gift(planets[p], winner, gifts[p], count)))
  }

  lemma {:induction false} GiftsAddUp(planets: seq<Planet>, winner: nat, gifts: seq<nat>, count: nat)
    requires |gifts| == |planets| && count > 0
    ensures OnPlanets(Given(planets, winner, gifts, count)) == OnPlanets(planets) + Gifts(planets, winner, gifts, count)
    ensures Gifts(planets, winner, gifts, count) >= 0
  {
    if planets != [] {
      var n := |planets| - 1;
      assert Given(planets, winner, gifts, count)[..n] == Given(planets[..n], winner, gifts[..n], count);
      GiftsAddUp(planets[..n], winner, gifts[..n], count);
    }
  }

  // ---- A beaming pass balances ----

  /** The ledger has not changed, and nothing granted is taken back. */
  ghost predicate Balances(w: World, w': World) {
    Shaped(w, w') && Ledger(w') == Ledger(w) && w'.granted >= w.granted
  }

  lemma {:induction false} PutBalances(w: World, i: nat, j: Ship, p: nat, l: Planet)
    requires i < |w.ships| && p < |w.planets|
    ensures Ledger(PutPlanet(PutShip(w, i, j), p, l))
            == Ledger(w) + (j.armies - w.ships[i].armies) + (l.armies - w.planets[p].armies)
  {
    ShipChange(w.ships, i, j);
    PlanetChange(w.planets, p, l);
  }

  lemma {:induction false} TransferBalances(w: World, i: nat, up: int)
    requires WellFormed(w) && i < |w.ships|
    ensures Balances(w, Transfer(w, i, up))
  {
    BoardingBalances(w.ships, i, w.ships[i].dockWith, up);
  }

  lemma {:induction false} BoardingBalances(ships: seq<Ship>, i: nat, k: nat, up: int)
    requires i < |ships| && k < |ships|
    ensures OnShips(Boarded(ships, i, k, up)) == OnShips(ships)
  {
    var boarded := ships[i := ships[i].(armies := ships[i].armies + up)];
    ShipChange(ships, i, boarded[i]);
    ShipChange(boarded, k, boarded[k].(armies := boarded[k].armies - up));
  }

  lemma {:induction false} AddTroopsBalances(w: World, loser: nat, winner: nat, d: Draw)
    requires WellFormed(w) && |d.gifts| == |w.planets|
    ensures Balances(w, AddTroops(w, loser, winner, d))
  {
    var count := CountPlayers(w.ships, loser);
    if count >= 3 && !(count < 6 && d.pass % count == 0) {
      GiftsAddUp(w.planets, winner, d.gifts, count);
      assert AddTroops(w, loser, winner, d).planets == Given(w.planets, winner, d.gifts, count);
    }
  }

  lemma {:induction false} GenocideBalances(w: World, loser: nat, winner: nat, d: Draw)
    requires WellFormed(w) && |d.gifts| == |w.planets|
    ensures Balances(w, Genocide(w, loser, winner, d))
  {
    AddTroopsBalances(w, loser, winner, d);
    var given := AddTroops(w, loser, winner, d);
    KillKeepsArmies(given.ships, loser);
    var h := Capital(given.planets, loser);
    if h != -1 { PlanetChange(given.planets, h, given.planets[h].(coupTime := d.coupTime)); }
  }

  lemma {:induction false} CheckGenBalances(w: World, cfg: Config, loser: nat, winner: nat, d: Draw)
    requires WellFormed(w) && loser < TEAMCODES && winner < TEAMCODES && |d.gifts| == |w.planets|
    ensures Balances(w, CheckGen(w, cfg, loser, winner, d))
  {
    var clock := Recounted(w, cfg, loser);
    GenocideBalances(CheckWin(clock.(surrender := clock.surrender[loser := 0]), cfg, winner).0, loser, winner, d);
  }

  lemma {:induction false} ExchangeBalances(w: World, i: nat, up: int)
    requires WellFormed(w) && i < |w.ships|
    ensures Balances(w, Exchange(w, i, up))
  {
    var j := w.ships[i];
    var l := w.planets[j.planet];
    PutBalances(w, i, j.(armies := j.armies + up), j.planet, l.(armies := l.armies - up));
  }

  lemma {:induction false} AttackBalances(w: World, i: nat)
    requires WellFormed(w) && i < |w.ships|
    ensures Balances(w, Attack(w, i))
  {
    var j := w.ships[i];
    var l := w.planets[j.planet];
    PutBalances(w, i, j.(armies := j.armies - 1), j.planet,
                l.(armies := l.armies - 1, owner := if l.armies == 1 then NOBODY else l.owner));
  }

  lemma {:induction false} TakeOverBalances(w: World, i: nat)
    requires WellFormed(w) && i < |w.ships| && w.planets[w.ships[i].planet].armies == 0
    ensures Balances(w, TakeOver(w, i))
  {
    var j := w.ships[i];
    PutBalances(w, i, j.(armies := j.armies - 1), j.planet, w.planets[j.planet].(armies := 1, owner := j.team));
  }

  lemma {:induction false} LandBalances(w: World, cfg: Config, i: nat, d: Draw)
    requires WellFormed(w) && i < |w.ships| && |d.gifts| == |w.planets|
    ensures Balances(w, Land(w, cfg, i, d).0)
  {
    var l := w.planets[w.ships[i].planet];
    if l.armies == 0 {
      TakeOverBalances(w, i);
    } else {
      AttackBalances(w, i);
      CheckGenBalances(Attack(w, i), cfg, l.owner, w.ships[i].team, d);
    }
  }

  lemma {:induction false} BeamShipBalances(w: World, cfg: Config, i: nat, d: Draw) returns (r: (World, bool))
    requires WellFormed(w) && i < |w.ships| && |d.gifts| == |w.planets|
    ensures r == BeamShip(w, cfg, i, d) && Balances(w, r.0)
  {
    r := BeamShip(w, cfg, i, d);
    ExchangeBalances(w, i, 1);
    ExchangeBalances(w, i, -1);
    TransferBalances(w, i, 1);
    TransferBalances(w, i, -1);
    LandBalances(w, cfg, i, d);
  }

  lemma {:induction false} BeamPassBalances(w: World, cfg: Config, i: nat, draws: seq<Draw>)
    requires WellFormed(w) && i <= |w.ships| == |draws|
    requires forall d :: d in draws ==> |d.gifts| == MAXPLANETS
    ensures Balances(w, BeamPass(w, cfg, i, draws))
    decreases |draws| - i
  {
    if i < |w.ships| {
      assert draws[i] in draws;
      var turn := BeamShipBalances(w, cfg, i, draws[i]);
      if !turn.1 { BeamPassBalances(turn.0, cfg, i + 1, draws); }
    }
  }

  /** Main result: from any state, one beam() pass changes the armies in the galaxy by exactly
      minus two for each landing against a garrison plus what addTroops grants. */
  lemma {:induction false} BeamConserves(w: World, cfg: Config, draws: seq<Draw>)
    requires WellFormed(w) && w.attacks == 0 && w.granted == 0 && |w.ships| == |draws|
    requires forall d :: d in draws ==> |d.gifts| == MAXPLANETS
    ensures var w' := BeamPass(w, cfg, 0, draws);
            Total(w') == Total(w) - 2 * w'.attacks + w'.granted && w'.granted >= 0
  {
    BeamPassBalances(w, cfg, 0, draws);
  }

  // ---- Beaming up leaves four ----

  /** Beaming up from a planet or a base moves exactly one army, or none at all; a planet keeps at
      least four. */
  lemma {:induction false} BeamUpMovesOne(w: World, i: nat)
    requires WellFormed(w) && i < |w.ships| && (w.ships[i].orbit || w.ships[i].dock)
    ensures var j, w' := w.ships[i], BeamUp(w, i);
            if !MayBeamUp(w, i) then w' == w
            else if j.orbit then
              && w'.ships == w.ships[i := j.(armies := j.armies + 1)]
              && w'.planets[j.planet] == w.planets[j.planet].(armies := w.planets[j.planet].armies - 1)
              && w'.planets[j.planet].armies >= 4
              && forall p :: 0 <= p < |w.planets| && p != j.planet ==> w'.planets[p] == w.planets[p]
            else
              && w'.planets == w.planets
              && (j.dockWith != i ==> w'.ships[i].armies == j.armies + 1
                                      && w'.ships[j.dockWith].armies == w.ships[j.dockWith].armies - 1)
  {
  }

  function Min(a: int, b: int): int {
    if a < b then a else b
  }

  /** Armies on a planet fall below four, or fall at all if there were fewer, only by landings
      against garrisons. */
  ghost predicate Leaves(w: World, w': World) {
    && |w'.planets| == |w.planets| && w'.attacks >= w.attacks
    && forall p :: 0 <= p < |w.planets| ==>
         w'.planets[p].armies >= Min(w.planets[p].armies, 4) - (w'.attacks - w.attacks)
  }

  lemma {:induction false} TroopsLeave(w: World, loser: nat, winner: nat, d: Draw)
    requires WellFormed(w) && |d.gifts| == |w.planets|
    ensures var w' := Genocide(w, loser, winner, d);
            && w'.attacks == w.attacks
            && forall p :: 0 <= p < |w.planets| ==> w'.planets[p].armies >= w.planets[p].armies
  {
    forall p | 0 <= p < |w.planets|
      ensures AddTroops(w, loser, winner, d).planets[p].armies >= w.planets[p].armies
    {
      TroopsForWinnersOnly(w, loser, winner, d, p);
    }
  }

  lemma {:induction false} CheckGenLeaves(w: World, cfg: Config, loser: nat, winner: nat, d: Draw)
    requires WellFormed(w) && loser < TEAMCODES && winner < TEAMCODES && |d.gifts| == |w.planets|
    ensures var w' := CheckGen(w, cfg, loser, winner, d);
            && w'.attacks == w.attacks && |w'.planets| == |w.planets|
            && forall p :: 0 <= p < |w.planets| ==> w'.planets[p].armies >= w.planets[p].armies
  {
    var clock := Recounted(w, cfg, loser);
    var checked := CheckWin(clock.(surrender := clock.surrender[loser := 0]), cfg, winner).0;
    assert checked.planets == w.planets && checked.attacks == w.attacks;
    TroopsLeave(checked, loser, winner, d);
  }

  lemma {:induction false} LandLeaves(w: World, cfg: Config, i: nat, d: Draw)
    requires WellFormed(w) && i < |w.ships| && |d.gifts| == |w.planets|
    ensures Leaves(w, Land(w, cfg, i, d).0)
  {
    var j := w.ships[i];
    var l := w.planets[j.planet];
    if l.armies == 0 {
      assert Land(w, cfg, i, d).0.planets == TakeOver(w, i).planets;
    } else {
      CheckGenLeaves(Attack(w, i), cfg, l.owner, j.team, d);
    }
  }

  lemma {:induction false} BeamShipLeaves(w: World, cfg: Config, i: nat, d: Draw) returns (r: (World, bool))
    requires WellFormed(w) && i < |w.ships| && |d.gifts| == |w.planets|
    ensures r == BeamShip(w, cfg, i, d) && Leaves(w, r.0)
  {
    r := BeamShip(w, cfg, i, d);
    var j := w.ships[i];
    if j.orbit || j.dock { BeamUpMovesOne(w, i); }
    LandLeaves(w, cfg, i, d);
  }

  lemma {:induction false} LeavesChains(a: World, b: World, c: World)
    requires Leaves(a, b) && Leaves(b, c)
    ensures Leaves(a, c)
  {
    forall p | 0 <= p < |a.planets|
      ensures c.planets[p].armies >= Min(a.planets[p].armies, 4) - (c.attacks - a.attacks)
    {
      assert b.planets[p].armies >= Min(a.planets[p].armies, 4) - (b.attacks - a.attacks);
    }
  }

  /** Main result: however many ships beam up and down in a pass, in whatever order, a planet keeps
      four armies, or what it had if that is fewer, less one for each landing against a garrison. */
  lemma {:induction false} BeamPassLeaves(w: World, cfg: Config, i: nat, draws: seq<Draw>)
    requires WellFormed(w) && i <= |w.ships| == |draws|
    requires forall d :: d in draws ==> |d.gifts| == MAXPLANETS
    ensures Leaves(w, BeamPass(w, cfg, i, draws))
    decreases |draws| - i
  {
    if i < |w.ships| {
      assert draws[i] in draws;
      var turn := BeamShipLeaves(w, cfg, i, draws[i]);
      if !turn.1 {
        BeamPassLeaves(turn.0, cfg, i + 1, draws);
        LeavesChains(w, turn.0, BeamPass(turn.0, cfg, i + 1, draws));
      }
    }
  }

  // ---- A beaming pass keeps the state sound: genocide ----

  /** The next state is sound again, with the same slots. */
  ghost predicate Keeps(w: World, w': World) {
    Sound(w') && |w'.ships| == |w.ships|
  }

  lemma {:induction false} AddTroopsKeeps(w: World, loser: nat, winner: nat, d: Draw)
    requires Sound(w) && |d.gifts| == |w.planets| && winner in TEAMS
    ensures Keeps(w, AddTroops(w, loser, winner, d))
  {
    var count := CountPlayers(w.ships, loser);
    if count >= 3 && !(count < 6 && d.pass % count == 0) {
      var given := Given(w.planets, winner, d.gifts, count);
      GivenStaysOk(w.planets, winner, d.gifts, count);
      assert AddTroops(w, loser, winner, d) ==
             w.(planets := given, granted := w.granted + Gifts(w.planets, winner, d.gifts, count));
    }
  }

  lemma {:induction false} GivenStaysOk(planets: seq<Planet>, winner: nat, gifts: seq<nat>, count: nat)
    requires |gifts| == |planets| && count > 0 && winner in TEAMS && PlanetsOk(planets) && PlanetsFit(planets)
    ensures PlanetsOk(Given(planets, winner, gifts, count)) && PlanetsFit(Given(planets, winner, gifts, count))
  {
    forall p | 0 <= p < |planets|
      ensures PlanetOk(Given(planets, winner, gifts, count)[p])
    {
      assert PlanetOk(planets[p]);
    }
  }

  lemma {:induction false} CheckWinKeeps(w: World, cfg: Config, winner: nat)
    requires Sound(w) && winner < TEAMCODES
    ensures Keeps(w, CheckWin(w, cfg, winner).0)
  {
  }

  lemma {:induction false} KillKeeps(w: World, t: nat)
    requires Sound(w)
    ensures Keeps(w, w.(ships := KillTeam(w.ships, t)))
  {
    forall i | 0 <= i < |w.ships|
      ensures ShipOk(KillTeam(w.ships, t)[i])
    {
      assert ShipOk(w.ships[i]);
    }
  }

  lemma {:induction false} PlanetPut(w: World, p: nat, l: Planet)
    requires Sound(w) && p < |w.planets| && PlanetOk(l) && l.home < TEAMCODES
    ensures Sound(PutPlanet(w, p, l))
  {
  }

  lemma {:induction false} ShipPut(w: World, i: nat, j: Ship)
    requires Sound(w) && i < |w.ships| && ShipOk(j)
    requires j.planet < MAXPLANETS && j.dockWith < |w.ships| && j.team < TEAMCODES
    ensures Sound(PutShip(w, i, j))
  {
  }

  lemma {:induction false} GenocideKeeps(w: World, loser: nat, winner: nat, d: Draw)
    requires Sound(w) && winner in TEAMS && |d.gifts| == |w.planets|
    ensures Keeps(w, Genocide(w, loser, winner, d))
  {
    AddTroopsKeeps(w, loser, winner, d);
    var given := AddTroops(w, loser, winner, d);
    KillKeeps(given, loser);
    var killed := given.(ships := KillTeam(given.ships, loser));
    var h := Capital(killed.planets, loser);
    if h != -1 {
      assert PlanetOk(killed.planets[h]);
      PlanetPut(killed, h, killed.planets[h].(coupTime := d.coupTime));
    }
  }

  lemma {:induction false} CheckGenKeeps(w: World, cfg: Config, loser: nat, winner: nat, d: Draw)
    requires Sound(w) && loser < TEAMCODES && winner in TEAMS && |d.gifts| == |w.planets|
    ensures Keeps(w, CheckGen(w, cfg, loser, winner, d))
  {
    if !cfg.inl {
      var clock := Recounted(w, cfg, loser);
      if clock.plcount[loser] <= 0 {
        var stopped := clock.(surrender := clock.surrender[loser := 0]);
        CheckWinKeeps(stopped, cfg, winner);
        GenocideKeeps(CheckWin(stopped, cfg, winner).0, loser, winner, d);
      }
    }
  }

  // ---- Beaming ----

  /** A ship and a planet change together. */
  lemma {:induction false} ShipToPlanet(w: World, i: nat, p: nat, armies: int, l: Planet)
    requires Sound(w) && i < |w.ships| && p < |w.planets| && PlanetOk(l) && l.home < TEAMCODES
    requires ShipOk(w.ships[i].(armies := armies))
    ensures var w' := PutPlanet(PutShip(w, i, w.ships[i].(armies := armies)), p, l);
            Sound(w')
  {
    ShipPut(w, i, w.ships[i].(armies := armies));
    PlanetPut(PutShip(w, i, w.ships[i].(armies := armies)), p, l);
  }

  lemma {:induction false} ExchangeKeeps(w: World, i: nat, up: int)
    requires Sound(w) && i < |w.ships|
    requires ShipOk(w.ships[i].(armies := w.ships[i].armies + up))
    requires var l := w.planets[w.ships[i].planet]; PlanetOk(l.(armies := l.armies - up))
    ensures Keeps(w, Exchange(w, i, up))
  {
    var j := w.ships[i];
    var l := w.planets[j.planet];
    var ships := ShipsOkPut(w.ships, i, j.(armies := j.armies + up));
    var planets := PlanetsOkPut(w.planets, j.planet, l.(armies := l.armies - up));
    assert Exchange(w, i, up) == w.(ships := ships, planets := planets);
  }

  lemma {:induction false} PlanetsOkPut(planets: seq<Planet>, p: nat, l: Planet) returns (r: seq<Planet>)
    requires PlanetsOk(planets) && p < |planets| && PlanetOk(l)
    ensures r == planets[p := l] && PlanetsOk(r)
  {
    r := planets[p := l];
  }

  /** A ship, then its base, change. */
  lemma {:induction false} TransferKeeps(w: World, i: nat, up: int)
    requires Sound(w) && i < |w.ships|
    requires ShipOk(w.ships[i].(armies := w.ships[i].armies + up))
    requires ShipOk(Boarded(w.ships, i, w.ships[i].dockWith, up)[w.ships[i].dockWith])
    ensures Keeps(w, Transfer(w, i, up))
  {
    var j := w.ships[i];
    var ships := ShipsOkPut(w.ships, i, j.(armies := j.armies + up));
    var moved := ShipsOkPut(ships, j.dockWith, Boarded(w.ships, i, j.dockWith, up)[j.dockWith]);
    assert moved == Boarded(w.ships, i, j.dockWith, up);
  }

  lemma {:induction false} ShipsOkPut(ships: seq<Ship>, i: nat, j: Ship) returns (r: seq<Ship>)
    requires ShipsOk(ships) && i < |ships| && ShipOk(j)
    ensures r == ships[i := j] && ShipsOk(r)
  {
    r := ships[i := j];
  }

  lemma {:induction false} BeamUpKeeps(w: World, i: nat)
    requires Sound(w) && i < |w.ships| && (w.ships[i].orbit || w.ships[i].dock)
    ensures Keeps(w, BeamUp(w, i))
  {
    var j := w.ships[i];
    if MayBeamUp(w, i) {
      assert PlanetOk(w.planets[j.planet]) && ShipOk(j) && ShipOk(w.ships[j.dockWith]);
      if j.orbit { ExchangeKeeps(w, i, 1); } else { TransferKeeps(w, i, 1); }
    }
  }

  /** An army lands on a garrison: the planet may become neutral. */
  lemma {:induction false} AttackKeeps(w: World, i: nat)
    requires Sound(w) && i < |w.ships|
    requires w.ships[i].armies > 0 && w.planets[w.ships[i].planet].armies != 0
    ensures Keeps(w, Attack(w, i))
  {
    var j := w.ships[i];
    var l := w.planets[j.planet];
    assert ShipOk(j) && PlanetOk(l);
    ShipToPlanet(w, i, j.planet, j.armies - 1,
                 l.(armies := l.armies - 1, owner := if l.armies - 1 == 0 then NOBODY else l.owner));
  }

  lemma {:induction false} TakeOverKeeps(w: World, i: nat)
    requires Sound(w) && i < |w.ships|
    requires w.ships[i].armies > 0 && w.planets[w.ships[i].planet].armies == 0
    ensures Keeps(w, TakeOver(w, i))
  {
    var j := w.ships[i];
    var l := w.planets[j.planet];
    assert ShipOk(j) && PlanetOk(l);
    ShipToPlanet(w, i, j.planet, j.armies - 1, l.(armies := 1, owner := j.team));
  }

  lemma {:induction false} LandKeeps(w: World, cfg: Config, i: nat, d: Draw)
    requires Sound(w) && i < |w.ships| && |d.gifts| == |w.planets| && w.ships[i].armies > 0
    ensures Keeps(w, Land(w, cfg, i, d).0)
  {
    var j := w.ships[i];
    var l := w.planets[j.planet];
    assert ShipOk(j) && PlanetOk(l);
    if l.armies == 0 {
      TakeOverKeeps(w, i);
      CheckWinKeeps(TakeOver(w, i), cfg, j.team);
    } else {
      AttackKeeps(w, i);
      CheckGenKeeps(Attack(w, i), cfg, l.owner, j.team, d);
    }
  }

  lemma {:induction false} BeamDownKeeps(w: World, cfg: Config, i: nat, d: Draw)
    requires Sound(w) && i < |w.ships| && |d.gifts| == |w.planets|
    ensures Keeps(w, BeamDown(w, cfg, i, d).0)
  {
    var j := w.ships[i];
    var l := w.planets[j.planet];
    assert ShipOk(j) && PlanetOk(l) && ShipOk(w.ships[j.dockWith]);
    if j.armies != 0 {
      if j.orbit && j.team != l.owner {
        LandKeeps(w, cfg, i, d);
      } else if j.orbit {
        ExchangeKeeps(w, i, -1);
      } else if j.dock && w.ships[j.dockWith].team == j.team && w.ships[j.dockWith].armies < w.ships[j.dockWith].maxArmies {
        TransferKeeps(w, i, -1);
      }
    }
  }

  lemma {:induction false} BeamShipKeeps(w: World, cfg: Config, i: nat, d: Draw) returns (r: (World, bool))
    requires Sound(w) && i < |w.ships| && |d.gifts| == |w.planets|
    ensures r == BeamShip(w, cfg, i, d) && Keeps(w, r.0)
  {
    r := BeamShip(w, cfg, i, d);
    var j := w.ships[i];
    if j.alive && (j.orbit || j.dock) {
      if j.beamUp {
        BeamUpKeeps(w, i);
      } else if j.beamDown {
        BeamDownKeeps(w, cfg, i, d);
      }
    }
  }

  lemma {:induction false} KeepsChains(a: World, b: World, c: World)
    requires Keeps(a, b) && Keeps(b, c)
    ensures Keeps(a, c)
  {
  }

  lemma {:induction false} BeamPassKeeps(w: World, cfg: Config, i: nat, draws: seq<Draw>)
    requires Sound(w) && i <= |w.ships| == |draws|
    requires forall d :: d in draws ==> |d.gifts| == MAXPLANETS
    ensures Keeps(w, BeamPass(w, cfg, i, draws))
    decreases |draws| - i
  {
    if i < |w.ships| {
      assert draws[i] in draws;
      var turn := BeamShipKeeps(w, cfg, i, draws[i]);
      if !turn.1 {
        BeamPassKeeps(turn.0, cfg, i + 1, draws);
        KeepsChains(w, turn.0, BeamPass(turn.0, cfg, i + 1, draws));
      }
    }
  }

  /** After a beam() pass from a sound state every ship still carries between none and its
      maximum, and every planet is empty exactly when nobody owns it. */
  lemma {:induction false} BeamKeepsBounds(w: World, cfg: Config, draws: seq<Draw>)
    requires Sound(w) && |w.ships| == |draws|
    requires forall d :: d in draws ==> |d.gifts| == MAXPLANETS
    ensures var w' := BeamPass(w, cfg, 0, draws);
            && (forall i :: 0 <= i < |w'.ships| ==> 0 <= w'.ships[i].armies <= w'.ships[i].maxArmies)
            && (forall p :: 0 <= p < |w'.planets| ==> (w'.planets[p].armies == 0 <==> w'.planets[p].owner == NOBODY))
  {
    BeamPassKeeps(w, cfg, 0, draws);
    var w' := BeamPass(w, cfg, 0, draws);
    assert forall i :: 0 <= i < |w'.ships| ==> ShipOk(w'.ships[i]);
    assert forall p :: 0 <= p < |w'.planets| ==> PlanetOk(w'.planets[p]);
  }

  // ---- Carriers of no team ----

  /** Whether addTroops gives anything: always against six players or more, sometimes against
      three to five, never against fewer. */
  predicate Enrols(count: nat, pass: nat) {
    count >= 6 || (count >= 3 && pass % count != 0)
  }

  /** The ship puts an army down on the planet it orbits. */
  predicate Lands(w: World, i: nat)
    requires WellFormed(w) && i < |w.ships|
  {
    var j := w.ships[i];
    var l := w.planets[j.planet];
    && j.alive && j.orbit && !j.beamUp && j.beamDown && j.armies != 0
    && (j.team == l.owner || l.owner in j.war || l.owner == NOBODY)
  }

  /** A ship of no team puts an army on a planet that nobody owns. */
  predicate NeutralLanding(w: World, i: nat)
    requires WellFormed(w) && i < |w.ships|
  {
    Lands(w, i) && w.ships[i].team == NOBODY && w.planets[w.ships[i].planet].owner == NOBODY
  }

  /** The planets after the planet orbited has lost its last army. */
  function Lost(w: World, i: nat): seq<Planet>
    requires WellFormed(w) && i < |w.ships|
  {
    var p := w.ships[i].planet;
    w.planets[p := w.planets[p].(armies := 0, owner := NOBODY)]
  }

  /** The landing takes the last planet of a race without ending the game. */
  predicate EndsRace(w: World, cfg: Config, i: nat)
    requires WellFormed(w) && i < |w.ships|
  {
    var l := w.planets[w.ships[i].planet];
    && Lands(w, i) && w.ships[i].team != l.owner && l.armies == 1
    && !cfg.inl && CountOwned(w.planets, l.owner) == 1 && !Victory(Lost(w, i))
  }

  /** addTroops draws at least one army for a planet that nobody owns. */
  predicate SomeGift(planets: seq<Planet>, count: nat, d: Draw)
    requires |d.gifts| == |planets|
  {
    Enrols(count, d.pass) && exists p :: 0 <= p < |planets| && planets[p].owner == NOBODY && d.gifts[p] % (2 * count) != 0
  }

  /** A ship of no team ends a race, and armies are drawn for the planets of its "team". */
  predicate GiftToNobody(w: World, cfg: Config, i: nat, d: Draw)
    requires WellFormed(w) && i < |w.ships| && |d.gifts| == |w.planets|
  {
    && w.ships[i].team == NOBODY && EndsRace(w, cfg, i)
    && SomeGift(Lost(w, i), CountPlayers(w.ships, w.planets[w.ships[i].planet].owner), d)
  }

  lemma {:induction false} TroopsKeepPlanetsExactly(w: World, loser: nat, winner: nat, d: Draw)
    requires WellFormed(w) && PlanetsOk(w.planets) && |d.gifts| == |w.planets|
    requires winner in TEAMS || winner == NOBODY
    ensures PlanetsOk(AddTroops(w, loser, winner, d).planets)
            <==> winner in TEAMS || !SomeGift(w.planets, CountPlayers(w.ships, loser), d)
  {
    var count, w' := CountPlayers(w.ships, loser), AddTroops(w, loser, winner, d);
    forall p | 0 <= p < |w.planets|
      ensures PlanetOk(w'.planets[p])
              <==> winner in TEAMS || !(Enrols(count, d.pass) && w.planets[p].owner == NOBODY && d.gifts[p] % (2 * count) != 0)
    {
      assert PlanetOk(w.planets[p]);
      TroopsForWinnersOnly(w, loser, winner, d, p);
    }
  }

  lemma {:induction false} GenocideKeepsPlanetsExactly(w: World, loser: nat, winner: nat, d: Draw)
    requires WellFormed(w) && |d.gifts| == |w.planets|
    ensures PlanetsOk(Genocide(w, loser, winner, d).planets) <==> PlanetsOk(AddTroops(w, loser, winner, d).planets)
  {
    var given, w' := AddTroops(w, loser, winner, d).planets, Genocide(w, loser, winner, d).planets;
    assert forall p :: 0 <= p < |given| ==> w'[p] == given[p].(coupTime := w'[p].coupTime);
    if PlanetsOk(given) {
      assert forall p :: 0 <= p < |w'| ==> PlanetOk(given[p]) ==> PlanetOk(w'[p]);
    } else {
      assert forall p :: 0 <= p < |w'| ==> PlanetOk(w'[p]) ==> PlanetOk(given[p]);
    }
  }

  lemma {:induction false} CheckGenKeepsPlanetsExactly(w: World, cfg: Config, loser: nat, winner: nat, d: Draw)
    requires WellFormed(w) && PlanetsOk(w.planets) && |d.gifts| == |w.planets|
    requires loser < TEAMCODES && (winner in TEAMS || winner == NOBODY)
    ensures PlanetsOk(CheckGen(w, cfg, loser, winner, d).planets)
            <==> winner in TEAMS || cfg.inl || CountOwned(w.planets, loser) > 0 || Victory(w.planets)
                 || !SomeGift(w.planets, CountPlayers(w.ships, loser), d)
  {
    var clock := Recounted(w, cfg, loser);
    var checked := CheckWin(clock.(surrender := clock.surrender[loser := 0]), cfg, winner).0;
    assert checked.planets == w.planets && checked.ships == w.ships;
    TroopsKeepPlanetsExactly(checked, loser, winner, d);
    GenocideKeepsPlanetsExactly(checked, loser, winner, d);
  }

  lemma {:induction false} CountOwnedPut(planets: seq<Planet>, p: nat, l: Planet, t: nat)
    requires p < |planets|
    ensures CountOwned(planets[p := l], t)
            == CountOwned(planets, t) - (if planets[p].owner == t then 1 else 0) + if l.owner == t then 1 else 0
  {
    var n := |planets| - 1;
    assert planets[p := l][..n] == if p < n then planets[..n][p := l] else planets[..n];
    if p < n { CountOwnedPut(planets[..n], p, l, t); }
  }

  lemma {:induction false} CountPlayersPut(ships: seq<Ship>, i: nat, armies: int, t: nat)
    requires i < |ships|
    ensures CountPlayers(ships[i := ships[i].(armies := armies)], t) == CountPlayers(ships, t)
  {
    var n := |ships| - 1;
    var ships' := ships[i := ships[i].(armies := armies)];
    assert ships'[..n] == if i < n then ships[..n][i := ships'[i]] else ships[..n];
    if i < n { CountPlayersPut(ships[..n], i, armies, t); }
  }

  /** The last army of a garrison falls. */
  lemma {:induction false} LastArmyFalls(w: World, cfg: Config, i: nat, d: Draw)
    requires WellFormed(w) && PlanetsOk(w.planets) && i < |w.ships| && |d.gifts| == |w.planets|
    requires w.ships[i].team in TEAMS || w.ships[i].team == NOBODY
    requires Lands(w, i) && w.ships[i].team != w.planets[w.ships[i].planet].owner && w.planets[w.ships[i].planet].armies == 1
    ensures PlanetsOk(Land(w, cfg, i, d).0.planets) <==> !GiftToNobody(w, cfg, i, d)
  {
    var j := w.ships[i];
    var t := w.planets[j.planet].owner;
    var fought := LastAttack(w, i);
    CheckGenKeepsPlanetsExactly(fought, cfg, t, j.team, d);
    GiftWhen(w, cfg, i, d, fought);
    assert NOBODY !in TEAMS;
    assert Land(w, cfg, i, d).0 == CheckGen(fought, cfg, t, j.team, d);
  }

  lemma {:induction false} GiftWhen(w: World, cfg: Config, i: nat, d: Draw, fought: World)
    requires WellFormed(w) && WellFormed(fought) && i < |w.ships| && |d.gifts| == |w.planets|
    requires Lands(w, i) && w.ships[i].team != w.planets[w.ships[i].planet].owner && w.planets[w.ships[i].planet].armies == 1
    requires fought.planets == Lost(w, i)
    requires var t := w.planets[w.ships[i].planet].owner;
             && CountOwned(fought.planets, t) == CountOwned(w.planets, t) - 1
             && CountPlayers(fought.ships, t) == CountPlayers(w.ships, t)
    ensures var t := w.planets[w.ships[i].planet].owner;
            GiftToNobody(w, cfg, i, d) <==>
              w.ships[i].team == NOBODY && !cfg.inl && CountOwned(fought.planets, t) <= 0
              && !Victory(fought.planets) && SomeGift(fought.planets, CountPlayers(fought.ships, t), d)
  {
  }

  lemma {:induction false} LastAttack(w: World, i: nat) returns (fought: World)
    requires WellFormed(w) && PlanetsOk(w.planets) && i < |w.ships| && w.planets[w.ships[i].planet].armies == 1
    ensures fought == Attack(w, i) && fought.planets == Lost(w, i) && PlanetsOk(fought.planets) && WellFormed(fought)
    ensures var t := w.planets[w.ships[i].planet].owner;
            && CountOwned(fought.planets, t) == CountOwned(w.planets, t) - 1
            && CountPlayers(fought.ships, t) == CountPlayers(w.ships, t)
  {
    var j := w.ships[i];
    var l := w.planets[j.planet];
    fought := Attack(w, i);
    assert PlanetOk(l);
    var planets := PlanetsOkPut(w.planets, j.planet, l.(armies := 0, owner := NOBODY));
    assert planets == fought.planets;
    CountOwnedPut(w.planets, j.planet, planets[j.planet], l.owner);
    CountPlayersPut(w.ships, i, j.armies - 1, l.owner);
  }

  lemma {:induction false} LandKeepsPlanetsExactly(w: World, cfg: Config, i: nat, d: Draw)
    requires WellFormed(w) && PlanetsOk(w.planets) && i < |w.ships| && |d.gifts| == |w.planets|
    requires w.ships[i].team in TEAMS || w.ships[i].team == NOBODY
    requires Lands(w, i) && w.ships[i].team != w.planets[w.ships[i].planet].owner
    ensures PlanetsOk(Land(w, cfg, i, d).0.planets) <==> !GiftToNobody(w, cfg, i, d)
  {
    var j := w.ships[i];
    var l := w.planets[j.planet];
    assert PlanetOk(l);
    if l.armies == 1 {
      LastArmyFalls(w, cfg, i, d);
    } else {
      var left := l.armies - 1;
      var l' := if l.armies == 0 then l.(armies := 1, owner := j.team) else l.(armies := left);
      var planets := PlanetsOkPut(w.planets, j.planet, l');
      assert Land(w, cfg, i, d).0.planets == planets;
    }
  }

  /** From sound planets, a ship of a team or of none, whatever it carries, leaves a planet that
      breaks the rule in exactly two ways: it belongs to no team and lands on a planet of
      nobody's, or it belongs to no team, ends a race, and the daemon draws armies for nobody. */
  lemma {:induction false} BeamKeepsPlanetsExactly(w: World, cfg: Config, i: nat, d: Draw)
    requires WellFormed(w) && PlanetsOk(w.planets) && i < |w.ships| && |d.gifts| == |w.planets|
    requires w.ships[i].team in TEAMS || w.ships[i].team == NOBODY
    ensures PlanetsOk(BeamShip(w, cfg, i, d).0.planets) <==> !NeutralLanding(w, i) && !GiftToNobody(w, cfg, i, d)
  {
    var j := w.ships[i];
    var l := w.planets[j.planet];
    assert PlanetOk(l);
    if Lands(w, i) {
      if j.team == l.owner {
        OwnLanding(w, cfg, i, d);
      } else {
        LandKeepsPlanetsExactly(w, cfg, i, d);
      }
    } else if j.alive && j.orbit && j.beamUp && MayBeamUp(w, i) {
      var planets := PlanetsOkPut(w.planets, j.planet, l.(armies := l.armies - 1));
      assert BeamShip(w, cfg, i, d).0.planets == planets;
    } else {
      assert BeamShip(w, cfg, i, d).0.planets == w.planets;
    }
  }

  /** The first way, whatever the planet holds: it ends up with an army and no owner. */
  lemma {:induction false} NeutralCarrierBreaksPlanet(w: World, cfg: Config, i: nat, d: Draw)
    requires WellFormed(w) && i < |w.ships| && |d.gifts| == |w.planets| && NeutralLanding(w, i)
    requires w.planets[w.ships[i].planet].armies == 0
    ensures !PlanetOk(BeamShip(w, cfg, i, d).0.planets[w.ships[i].planet])
  {
    assert Exchange(w, i, -1).planets[w.ships[i].planet].armies == 1;
  }

  /** The galaxy of the second way: one Romulan and one Klingon planet, and a last Federation
      planet with one army; the other thirty-seven are nobody's. */
  function Sparse(): (r: seq<Planet>)
    ensures |r| == MAXPLANETS
  {
    seq(MAXPLANETS, p =>
      var owner := if p == 0 then FED else if p == 10 then ROM else if p == 20 then KLI else NOBODY;
      Planet(owner, if owner == NOBODY then 0 else 1, FED, false, false, false, 0))
  }

  /** A carrier of no team over the Federation's last planet, and three Federation players. */
  function Carrier(team: nat, armies: int): Ship {
    Ship(false, true, false, team, {FED}, OtherShip, armies, 10, 10, false, true, false, false, true, false, 0, 0)
  }

  function SparseGalaxy(): World {
    var fed := Carrier(FED, 0);
    World(Sparse(), [Carrier(NOBODY, 1), fed, fed, fed], seq(TEAMCODES, _ => 0), seq(TEAMCODES, _ => 0), 0, 0)
  }

  /** The second way: armies are drawn for planets that nobody owns. */
  lemma {:induction false} GiftToNobodyBreaksPlanets(cfg: Config)
    requires !cfg.inl
    ensures var w, d := SparseGalaxy(), Draw(1, seq(MAXPLANETS, _ => 1), 0);
            && WellFormed(w) && PlanetsOk(w.planets)
            && GiftToNobody(w, cfg, 0, d) && !PlanetsOk(BeamShip(w, cfg, 0, d).0.planets)
  {
    var w, d := SparseGalaxy(), Draw(1, seq(MAXPLANETS, _ => 1), 0);
    SparseEndsRace(cfg, w);
    ThreePlayers(w.ships);
    SomeForNobody(Lost(w, 0), d);
    assert PlanetsOk(w.planets);
    BeamKeepsPlanetsExactly(w, cfg, 0, d);
  }

  lemma {:induction false} SparseEndsRace(cfg: Config, w: World)
    requires w == SparseGalaxy() && !cfg.inl
    ensures WellFormed(w) && EndsRace(w, cfg, 0)
  {
    SparseIsOpen(w);
    CountOwnedPut(w.planets, 0, Lost(w, 0)[0], FED);
    CountZero(Lost(w, 0), FED);
  }

  lemma {:induction false} SomeForNobody(planets: seq<Planet>, d: Draw)
    requires |planets| == MAXPLANETS && d.pass == 1 && d.gifts == seq(MAXPLANETS, _ => 1)
    requires planets[1].owner == NOBODY
    ensures SomeGift(planets, 3, d)
  {
    assert d.gifts[1] % (2 * 3) != 0;
  }

  lemma {:induction false} ThreePlayers(ships: seq<Ship>)
    requires ships == SparseGalaxy().ships
    ensures CountPlayers(ships, FED) == 3
  {
    assert CountPlayers(ships[..1], FED) == 0 by { assert ships[..1][..0] == []; }
    assert ships[..2][..1] == ships[..1] && ships[..3][..2] == ships[..2];
    assert CountPlayers(ships[..2], FED) == 1;
    assert CountPlayers(ships[..3], FED) == 2;
  }

  /** Without the Federation's planet no team leads in three systems. */
  lemma {:induction false} SparseIsOpen(w: World)
    requires w == SparseGalaxy()
    ensures WellFormed(w) && !Victory(Lost(w, 0))
  {
    var lost := Lost(w, 0);
    SystemHeld(lost, 1, 10);
    SystemHeld(lost, 2, 20);
    forall t | t in TEAMS && t != ORI
      ensures !CountsFor(lost, 0, t)
    {
      SystemCountsFor(System(lost, 0), t);
    }
    VictoryIsThreeSystems(lost);
    forall t, out | t in TEAMS && 0 <= out < 4
      ensures !AllBut(lost, out, t)
    {
      assert CountsFor(lost, 0, t) ==> !CountsFor(lost, 1, t) && !CountsFor(lost, 2, t);
      assert CountsFor(lost, 1, t) ==> !CountsFor(lost, 2, t);
    }
  }

  /** A system in which a team owns a planet counts for no other team. */
  lemma {:induction false} SystemHeld(planets: seq<Planet>, i: nat, p: nat)
    requires |planets| == MAXPLANETS && i < 4 && 10 * i <= p < 10 * i + 10 && planets[p].owner in TEAMS
    ensures forall t :: t in TEAMS && t != planets[p].owner ==> !CountsFor(planets, i, t)
  {
    assert System(planets, i)[p - 10 * i] == planets[p];
    forall t | t in TEAMS && t != planets[p].owner
      ensures !CountsFor(planets, i, t)
    {
      SystemCountsFor(System(planets, i), t);
      assert Owns(System(planets, i), planets[p].owner);
    }
  }

  lemma {:induction false} OwnLanding(w: World, cfg: Config, i: nat, d: Draw)
    requires WellFormed(w) && PlanetsOk(w.planets) && i < |w.ships| && |d.gifts| == |w.planets|
    requires Lands(w, i) && w.ships[i].team == w.planets[w.ships[i].planet].owner
    ensures PlanetsOk(BeamShip(w, cfg, i, d).0.planets) <==> w.ships[i].team != NOBODY
  {
    var p := w.ships[i].planet;
    var l := w.planets[p];
    assert PlanetOk(l);
    var l' := l.(armies := l.armies + 1);
    assert BeamShip(w, cfg, i, d).0.planets == w.planets[p := l'];
    if l.owner == NOBODY {
      assert !PlanetOk(w.planets[p := l'][p]);
    } else {
      var planets := PlanetsOkPut(w.planets, p, l');
    }
  }

  // ---- Population ----

  lemma {:induction false} WorstPlague(armies: int, roll: nat)
    requires armies >= 0 && roll < 4500
    ensures PlagueLoss(armies, roll) <= PlagueLoss(armies, 4499)
  {
  }

  /** The worst plague against a bound, as a comparison without division. */
  lemma {:induction false} WorstPlagueIs(armies: int, left: int)
    requires armies >= 0
    ensures armies - PlagueLoss(armies, 4499) >= left <==> armies * armies + 4499 < 4500 * (armies - left + 1)
  {
    var square := armies * armies;
    assert PlagueLoss(armies, 4499) == (4499 + square) / 4500;
  }

  lemma {:induction false} SquareBelow(armies: int)
    requires armies > 5
    ensures armies * armies + 4499 < 4500 * armies <==> armies <= 4498
    ensures armies * armies + 4499 < 4500 * (armies - 4) <==> armies <= 4494
  {
    if armies <= 4498 { ProductSign(armies - 2, 4498 - armies); } else { ProductSign(armies - 1, armies - 4499); }
    if armies <= 4494 { ProductSign(armies - 6, 4494 - armies); } else { ProductSign(armies - 5, armies - 4495); }
  }

  lemma {:induction false} ProductSign(a: int, b: int)
    requires a >= 0 && b >= 0
    ensures a * b >= 0
  {
  }

  /** What the plague leaves, whatever random() gives. */
  ghost predicate PlagueLeaves(armies: int, left: int)
    requires armies >= 0
  {
    forall roll: nat :: roll < 4500 ==> armies - PlagueLoss(armies, roll) >= left
  }

  lemma {:induction false} PlagueWorstCase(armies: int, left: int)
    requires armies >= 0
    ensures PlagueLeaves(armies, left) <==> armies - PlagueLoss(armies, 4499) >= left
  {
    forall roll: nat | roll < 4500
      ensures PlagueLoss(armies, roll) <= PlagueLoss(armies, 4499)
    {
      WorstPlague(armies, roll);
    }
  }

  /** The plague leaves a garrison of more than five at least one army, whatever random() gives,
      exactly up to 4498 armies; and at least five exactly up to 4494. */
  lemma {:induction false} PlagueExactly(armies: int)
    requires armies > 5
    ensures PlagueLeaves(armies, 1) <==> armies <= 4498
    ensures PlagueLeaves(armies, 5) <==> armies <= 4494
  {
    PlagueWorstCase(armies, 1);
    PlagueWorstCase(armies, 5);
    WorstPlagueIs(armies, 1);
    WorstPlagueIs(armies, 5);
    SquareBelow(armies);
  }

  /** No plague that can empty the planet. */
  predicate PlagueSafe(l: Planet, cfg: Config) {
    cfg.plague ==> l.armies <= 4498
  }

  lemma {:induction false} PopulateKeeps(l: Planet, cfg: Config, g: Growth)
    requires PlanetOk(l) && GrowthOk(g) && PlagueSafe(l, cfg)
    ensures PlanetOk(PopPlanet(l, cfg, g))
  {
    if l.armies > 5 { PlagueExactly(l.armies); }
  }

  // ---- Fighting, surrender, ghosts ----

  lemma {:induction false} OverthrowKeeps(w: World)
    requires Sound(w)
    ensures Sound(w.(planets := OverthrowAll(w.planets)))
  {
    forall p | 0 <= p < |w.planets|
      ensures PlanetOk(OverthrowAll(w.planets)[p])
    {
      assert PlanetOk(w.planets[p]);
    }
  }

  lemma {:induction false} BombKeeps(w: World, i: nat, rnd: nat)
    requires Sound(w) && i < |w.ships|
    ensures Sound(Bomb(w, i, rnd))
  {
    var j := w.ships[i];
    var l := w.planets[j.planet];
    assert PlanetOk(l);
    if Bomb(w, i, rnd) != w { PlanetPut(w, j.planet, l.(armies := l.armies - Bombed(rnd, j.kind))); }
  }

  lemma {:induction false} BombPassKeeps(w: World, n: nat, rolls: seq<nat>)
    requires Sound(w) && n <= |w.ships| == |rolls|
    ensures Sound(BombPass(w, n, rolls))
  {
    if n > 0 {
      BombPassKeeps(w, n - 1, rolls);
      BombKeeps(BombPass(w, n - 1, rolls), n - 1, rolls[n - 1]);
    }
  }

  lemma {:induction false} CoupKeeps(w: World, i: nat)
    requires Sound(w) && i < |w.ships|
    ensures Sound(Coup(w, i))
  {
    var l := w.planets[w.ships[i].planet];
    assert PlanetOk(l);
    if MayCoup(w, i) { PlanetPut(w, w.ships[i].planet, l.(coup := true)); }
  }

  lemma {:induction false} TickKeeps(w: World)
    requires Sound(w)
    ensures Sound(w.(planets := TickCoups(w.planets)))
  {
    forall p | 0 <= p < |w.planets|
      ensures PlanetOk(TickCoups(w.planets)[p])
    {
      assert PlanetOk(w.planets[p]);
    }
  }

  lemma {:induction false} NeutralizeKeeps(w: World, t: nat, coupTimes: seq<int>)
    requires Sound(w) && |coupTimes| == |w.planets|
    ensures Sound(Neutralize(w, t, coupTimes))
  {
    KillKeeps(w, t);
    var w' := Neutralize(w, t, coupTimes);
    forall p | 0 <= p < |w.planets|
      ensures PlanetOk(w'.planets[p])
    {
      assert PlanetOk(w.planets[p]);
    }
  }

  lemma {:induction false} SurrenderPassKeeps(w: World, cfg: Config, n: nat, few: seq<bool>, coupTimes: seq<int>)
    requires Sound(w) && n <= TEAMCODES == |few| && |coupTimes| == MAXPLANETS
    ensures Sound(SurrenderPass(w, cfg, n, few, coupTimes))
  {
    if n > 0 {
      SurrenderPassKeeps(w, cfg, n - 1, few, coupTimes);
      var before := SurrenderPass(w, cfg, n - 1, few, coupTimes);
      NeutralizeKeeps(before.(surrender := before.surrender[n - 1 := before.surrender[n - 1] - 1]), n - 1, coupTimes);
    }
  }

  lemma {:induction false} SettleKeeps(w: World, i: nat, p: nat)
    requires Sound(w) && i < |w.ships| && p < |w.planets|
    requires w.planets[p].owner in TEAMS && w.ships[i].armies >= 0
    ensures Sound(Settle(w, i, p))
  {
    var v := w.ships[i];
    var l := w.planets[p].(armies := w.planets[p].armies + v.armies);
    assert ShipOk(v) && PlanetOk(w.planets[p]);
    PlanetPut(w, p, l);
    ShipPut(PutPlanet(w, p, l), i, v.(armies := 0));
  }

  /** A ghost's armies are neither lost nor duplicated. */
  lemma {:induction false} RescueConserves(w: World, i: nat)
    requires WellFormed(w) && i < |w.ships|
    ensures Total(Rescue(w, i)) == Total(w)
  {
    var v := w.ships[i];
    if v.armies > 0 && HomeSpace(v.team) != -1 {
      var p := OwnedIn(w.planets, v.team, HomeSpace(v.team), HomeSpace(v.team) + 10);
      if p != -1 {
        PutBalances(w, i, v.(armies := 0), p, w.planets[p].(armies := w.planets[p].armies + v.armies));
      }
    }
  }

  lemma {:induction false} RescueKeeps(w: World, i: nat)
    requires Sound(w) && i < |w.ships|
    ensures Sound(Rescue(w, i))
  {
    var v := w.ships[i];
    if !v.observer && v.armies > 0 && HomeSpace(v.team) != -1 {
      var p := OwnedIn(w.planets, v.team, HomeSpace(v.team), HomeSpace(v.team) + 10);
      if p != -1 { SettleKeeps(w, i, p); }
    }
  }

  /** Enrolment after a genocide: less than two armies for each player of the losing team, as
      drawn, on the winner's planets only, and nothing unless the draw allows it. */
  lemma {:induction false} TroopsForWinnersOnly(w: World, loser: nat, winner: nat, d: Draw, p: nat)
    requires WellFormed(w) && |d.gifts| == |w.planets| && p < |w.planets|
    ensures var before, after, count := w.planets[p], AddTroops(w, loser, winner, d).planets[p], CountPlayers(w.ships, loser);
            if before.owner == winner && Enrols(count, d.pass) then
              && before.armies <= after.armies < before.armies + 2 * count
              && after == before.(armies := before.armies + d.gifts[p] % (2 * count))
            else after == before
  {
    var count := CountPlayers(w.ships, loser);
    if count > 0 { assert 0 <= d.gifts[p] % (2 * count) < 2 * count; }
  }

  /** A race whose countdown ends owns nothing, and nobody of it is alive. */
  lemma {:induction false} SurrenderEndsRace(w: World, cfg: Config, t: nat, few: bool, coupTimes: seq<int>)
    requires WellFormed(w) && t < TEAMCODES && |coupTimes| == |w.planets|
    ensures var w' := SurrenderTick(w, cfg, t, few, coupTimes);
            && (w.surrender[t] != 0 && !few && w.plcount[t] <= cfg.surrenderStart <==> w'.surrender[t] == w.surrender[t] - 1)
            && (w'.surrender[t] == 0 && w.surrender[t] != 0 && t != NOBODY ==>
                  && (forall p :: 0 <= p < |w'.planets| ==> w'.planets[p].owner != t)
                  && (forall i :: 0 <= i < |w'.ships| && w'.ships[i].team == t ==> !w'.ships[i].alive))
            && forall p :: 0 <= p < |w.planets| && w.planets[p].owner != t ==>
                 w'.planets[p].owner == w.planets[p].owner && w'.planets[p].armies == w.planets[p].armies
  {
  }

  /** A rescued ghost's armies all go to the first planet its team owns in its home space. */
  lemma {:induction false} RescuedTo(w: World, i: nat, p: nat)
    requires WellFormed(w) && i < |w.ships| && !w.ships[i].observer && w.ships[i].armies > 0
    requires var k := HomeSpace(w.ships[i].team);
             && k != -1 && k <= p < k + 10 && w.planets[p].owner == w.ships[i].team
             && forall q :: k <= q < p ==> w.planets[q].owner != w.ships[i].team
    ensures Rescue(w, i).planets[p].armies == w.planets[p].armies + w.ships[i].armies
    ensures Rescue(w, i).ships[i].armies == 0
  {
    FirstOwned(w.planets, w.ships[i].team, HomeSpace(w.ships[i].team), HomeSpace(w.ships[i].team) + 10, p);
  }

  lemma {:induction false} FirstOwned(planets: seq<Planet>, team: nat, k: nat, end: nat, p: nat)
    requires k <= p < end <= |planets| && planets[p].owner == team
    requires forall q :: k <= q < p ==> planets[q].owner != team
    ensures OwnedIn(planets, team, k, end) == p
    decreases p - k
  {
    if k < p { FirstOwned(planets, team, k + 1, end, p); }
  }

  // ---- Runs ----

  datatype Event =
    | Beam(draws: seq<Draw>)
    | Populate(p: nat, growth: Growth)
    | Fight(rolls: seq<nat>)
    | ThrowCoup(c: nat)
    | SurrenderMinute(few: seq<bool>, coupTimes: seq<int>)
    | GhostBust(g: nat)
    | Steer(s: nat, ship: Ship)  // players and the rest of the daemon: orders, orbits, deaths, re-entry, refits

  ghost predicate Enabled(w: World, cfg: Config, e: Event)
    requires WellFormed(w)
  {
    match e
    case Beam(draws) => |draws| == |w.ships| && forall d :: d in draws ==> |d.gifts| == MAXPLANETS
    case Populate(p, growth) => p < MAXPLANETS && GrowthOk(growth) && PlagueSafe(w.planets[p], cfg)
    case Fight(rolls) => |rolls| == |w.ships|
    case ThrowCoup(i) => i < |w.ships|
    case SurrenderMinute(few, coupTimes) => |few| == TEAMCODES && |coupTimes| == MAXPLANETS
    case GhostBust(i) => i < |w.ships|
    case Steer(i, ship) => i < |w.ships| && ShipOk(ship) && ShipsFit(w.ships[i := ship])
  }

  function Apply(w: World, cfg: Config, e: Event): (w': World)
    requires WellFormed(w) && Enabled(w, cfg, e)
    ensures Shaped(w, w')
  {
    match e
    case Beam(draws) => BeamPass(w.(attacks := 0, granted := 0), cfg, 0, draws)
    case Populate(p, growth) => PutPlanet(w, p, PopPlanet(w.planets[p], cfg, growth))
    case Fight(rolls) => BombPass(w.(planets := OverthrowAll(w.planets)), |w.ships|, rolls)
    case ThrowCoup(i) => Coup(w, i)
    case SurrenderMinute(few, coupTimes) =>
      var ticked := w.(planets := TickCoups(w.planets));
      if cfg.tourn then SurrenderPass(ticked, cfg, TEAMCODES, few, coupTimes) else ticked
    case GhostBust(i) => Rescue(w, i)
    case Steer(i, ship) => PutShip(w, i, ship)
  }

  ghost function After(w: World, cfg: Config, events: seq<Event>): (w': World)
    requires WellFormed(w)
    ensures Shaped(w, w')
  {
    if events == [] then w
    else
      var before := After(w, cfg, events[..|events| - 1]);
      var e := events[|events| - 1];
      if Enabled(before, cfg, e) then Apply(before, cfg, e) else before
  }

  lemma {:induction false} ApplyKeeps(w: World, cfg: Config, e: Event)
    requires Sound(w) && Enabled(w, cfg, e)
    ensures Sound(Apply(w, cfg, e))
  {
    match e
    case Beam(draws) => BeamPassKeeps(w.(attacks := 0, granted := 0), cfg, 0, draws);
    case Populate(p, growth) =>
      assert PlanetOk(w.planets[p]);
      PopulateKeeps(w.planets[p], cfg, growth);
      PlanetPut(w, p, PopPlanet(w.planets[p], cfg, growth));
    case Fight(rolls) =>
      OverthrowKeeps(w);
      BombPassKeeps(w.(planets := OverthrowAll(w.planets)), |w.ships|, rolls);
    case ThrowCoup(i) => CoupKeeps(w, i);
    case SurrenderMinute(few, coupTimes) =>
      TickKeeps(w);
      if cfg.tourn { SurrenderPassKeeps(w.(planets := TickCoups(w.planets)), cfg, TEAMCODES, few, coupTimes); }
    case GhostBust(i) => RescueKeeps(w, i);
    case Steer(i, ship) =>
      assert w.ships[i := ship][i] == ship;
      ShipPut(w, i, ship);
  }

  /** Main result: in every run of beaming, bombing, coups, population, surrender and ghost
      rescue, a planet has no armies exactly when nobody owns it, and no count is negative. */
  lemma {:induction false} ArmiesStaySound(w: World, cfg: Config, events: seq<Event>)
    requires Sound(w)
    ensures Sound(After(w, cfg, events))
  {
    if events != [] {
      var n := |events| - 1;
      ArmiesStaySound(w, cfg, events[..n]);
      var before := After(w, cfg, events[..n]);
      if Enabled(before, cfg, events[n]) { ApplyKeeps(before, cfg, events[n]); }
    }
  }

  // ---- The census and victory ----

  /** Every planet is counted once. */
  lemma {:induction false} CensusAddsUp(planets: seq<Planet>)
    requires PlanetsOk(planets)
    ensures CountOwned(planets, NOBODY) + CountOwned(planets, FED) + CountOwned(planets, ROM)
            + CountOwned(planets, KLI) + CountOwned(planets, ORI) == |planets|
  {
    if planets != [] {
      var n := |planets| - 1;
      assert PlanetOk(planets[n]);
      forall p | 0 <= p < n ensures PlanetOk(planets[..n][p]) { assert PlanetOk(planets[p]); }
      CensusAddsUp(planets[..n]);
    }
  }

  lemma {:induction false} CountZero(planets: seq<Planet>, t: nat)
    ensures CountOwned(planets, t) == 0 <==> forall p :: 0 <= p < |planets| ==> planets[p].owner != t
  {
    if planets != [] {
      var n := |planets| - 1;
      CountZero(planets[..n], t);
      assert forall p :: 0 <= p < n ==> planets[..n][p] == planets[p];
    }
  }

  ghost predicate Owns(planets: seq<Planet>, t: nat) {
    exists p :: 0 <= p < |planets| && planets[p].owner == t
  }

  /** Who a home system counts for: FED, ROM and KLI must own a planet there and no rival may;
      ORI need own none, so a system without owners counts for ORI. */
  lemma {:induction false} SystemCountsFor(planets: seq<Planet>, t: nat)
    requires t in TEAMS
    ensures SystemOf(planets) == t <==>
              && (forall u :: u in TEAMS && u != t ==> !Owns(planets, u))
              && (t == ORI || Owns(planets, t))
  {
    CountZero(planets, FED);
    CountZero(planets, ROM);
    CountZero(planets, KLI);
    CountZero(planets, ORI);
    assert Owns(planets, FED) <==> CountOwned(planets, FED) != 0;
    assert Owns(planets, ROM) <==> CountOwned(planets, ROM) != 0;
    assert Owns(planets, KLI) <==> CountOwned(planets, KLI) != 0;
    assert Owns(planets, ORI) <==> CountOwned(planets, ORI) != 0;
    assert FED in TEAMS && ROM in TEAMS && KLI in TEAMS && ORI in TEAMS;
  }

  /** System i counts for team t. */
  predicate CountsFor(planets: seq<Planet>, i: nat, t: nat)
    requires |planets| == MAXPLANETS && i < 4
  {
    SystemOf(System(planets, i)) == t
  }

  function One(b: bool): nat {
    if b then 1 else 0
  }

  lemma {:induction false} StandingIs(planets: seq<Planet>, t: nat)
    requires |planets| == MAXPLANETS && t in TEAMS
    ensures Standings(planets, 4)[t] == One(CountsFor(planets, 0, t)) + One(CountsFor(planets, 1, t))
                                      + One(CountsFor(planets, 2, t)) + One(CountsFor(planets, 3, t))
  {
    StandingGrows(planets, t, 1);
    StandingGrows(planets, t, 2);
    StandingGrows(planets, t, 3);
    StandingGrows(planets, t, 4);
    assert Standings(planets, 0)[t] == 0;
  }

  lemma {:induction false} StandingGrows(planets: seq<Planet>, t: nat, n: nat)
    requires |planets| == MAXPLANETS && t in TEAMS && 1 <= n <= 4
    ensures Standings(planets, n)[t] == Standings(planets, n - 1)[t] + One(CountsFor(planets, n - 1, t))
  {
  }

  /** The galaxy is won exactly when some team leaves at most one home system to the others. */
  lemma {:induction false} VictoryIsThreeSystems(planets: seq<Planet>)
    requires |planets| == MAXPLANETS
    ensures Victory(planets) <==>
              exists t, out :: t in TEAMS && 0 <= out < 4 && AllBut(planets, out, t)
  {
    forall t | t in TEAMS
      ensures Standings(planets, 4)[t] >= VICTORY <==> exists out :: 0 <= out < 4 && AllBut(planets, out, t)
    {
      StandingIs(planets, t);
      if Standings(planets, 4)[t] >= VICTORY {
        var out := if !CountsFor(planets, 0, t) then 0 else if !CountsFor(planets, 1, t) then 1
                   else if !CountsFor(planets, 2, t) then 2 else 3;
        assert AllBut(planets, out, t);
      }
    }
    assert FED in TEAMS && ROM in TEAMS && KLI in TEAMS && ORI in TEAMS;
  }

  ghost predicate AllBut(planets: seq<Planet>, out: nat, t: nat)
    requires |planets| == MAXPLANETS
  {
    forall i :: 0 <= i < 4 && i != out ==> CountsFor(planets, i, t)
  }
}
