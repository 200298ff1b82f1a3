/** Armies, planets and teams (ntserv/daemon.c: beaming, bombing, population, surrender, the
    census and victory, ghost rescue; ntserv/coup.c), as functions on the shared state. */
module Armies {

  const NOBODY: nat := 0
  const FED: nat := 1
  const ROM: nat := 2
  const KLI: nat := 4
  const ORI: nat := 8
  const TEAMS: set<nat> := {1, 2, 4, 8}
  const MAXPLANETS: nat := 40
  const TEAMCODES: nat := 16  // te_plcount and te_surrender have MAXTEAM + 1 entries
  const SURREND: int := 4
  const VICTORY: nat := 3

  datatype Kind = Assault | Starbase | OtherShip

  /** `home` is the team of the planet's home space, `capital` the PLHOME flag, `coup` PLCOUP. */
  datatype Planet = Planet(owner: nat, armies: int, home: nat, capital: bool, agri: bool, coup: bool, coupTime: int)

  /** `free` is PFREE, `alive` PALIVE; `war` the teams of p_war; `carry` the armies its kills
      entitle a ship to; the flags are orders and attachments. */
  datatype Ship = Ship(free: bool, alive: bool, observer: bool, team: nat, war: set<nat>, kind: Kind,
                       armies: int, maxArmies: int, carry: int, kills: bool,
                       orbit: bool, dock: bool, beamUp: bool, beamDown: bool, bomb: bool,
                       planet: nat, dockWith: nat)

  datatype Config = Config(inl: bool, tourn: bool, plague: bool, maxPop: int, surrenderStart: int, minutes: int)

  /** The shared state; `attacks` and `granted` count, for one beam() pass, the armies landed
      against a garrison and the armies given by addTroops. */
  datatype World = World(planets: seq<Planet>, ships: seq<Ship>, plcount: seq<int>, surrender: seq<int>,
                         attacks: nat, granted: int)

  predicate WellFormed(w: World) {
    && |w.planets| == MAXPLANETS && |w.plcount| == |w.surrender| == TEAMCODES
    && PlanetsFit(w.planets) && ShipsFit(w.ships)
  }

  /** The next state is well-formed too, with the same slots. */
  ghost predicate Shaped(w: World, w': World) {
    WellFormed(w') && |w'.ships| == |w.ships|
  }

  predicate PlanetsFit(planets: seq<Planet>) {
    forall p :: 0 <= p < |planets| ==> planets[p].owner < TEAMCODES && planets[p].home < TEAMCODES
  }

  predicate ShipsFit(ships: seq<Ship>) {
    forall i :: 0 <= i < |ships| ==>
      ships[i].planet < MAXPLANETS && ships[i].dockWith < |ships| && ships[i].team < TEAMCODES
  }

  function PutPlanet(w: World, p: nat, l: Planet): World
    requires p < |w.planets|
  {
    w.(planets := w.planets[p := l])
  }

  function PutShip(w: World, i: nat, s: Ship): World
    requires i < |w.ships|
  {
    w.(ships := w.ships[i := s])
  }

  // ---- Census, victory, genocide ----

  function CountOwned(planets: seq<Planet>, t: nat): nat {
    if planets == [] then 0
    else CountOwned(planets[..|planets| - 1], t) + if planets[|planets| - 1].owner == t then 1 else 0
  }

  function Census(planets: seq<Planet>): (r: seq<int>)
    ensures |r| == TEAMCODES
  {
    seq(TEAMCODES, t requires 0 <= t < TEAMCODES => CountOwned(planets, t))
  }

  /** Who a home system counts for: a team none of whose rivals has a planet there.  The tests
      are made in the order ORI, KLI, ROM, FED, so a neutral system counts for ORI. */
  function SystemOf(planets: seq<Planet>): nat {
    var fed, rom, kli, ori := CountOwned(planets, FED), CountOwned(planets, ROM), CountOwned(planets, KLI), CountOwned(planets, ORI);
    if fed + rom + kli == 0 then ORI
    else if fed + rom + ori == 0 then KLI
    else if fed + kli + ori == 0 then ROM
    else if rom + kli + ori == 0 then FED
    else NOBODY
  }

  /** The i-th of the four home systems. */
  function System(planets: seq<Planet>, i: nat): seq<Planet>
    requires |planets| == MAXPLANETS && i < 4
  {
    planets[10 * i..10 * i + 10]
  }

  /** How many of the first `n` systems count for each team. */
  function Standings(planets: seq<Planet>, n: nat): (r: seq<nat>)
    requires |planets| == MAXPLANETS && n <= 4
    ensures |r| == TEAMCODES
  {
    if n == 0 then seq(TEAMCODES, _ => 0)
    else
      var before := Standings(planets, n - 1);
      var holder := SystemOf(System(planets, n - 1));
      if holder == NOBODY then before else before[holder := before[holder] + 1]
  }

  predicate Victory(planets: seq<Planet>)
    requires |planets| == MAXPLANETS
  {
    var team := Standings(planets, 4);
    team[FED] >= VICTORY || team[ROM] >= VICTORY || team[KLI] >= VICTORY || team[ORI] >= VICTORY
  }

  /** The recount of checkwin clears the counters of nobody and of the four teams only. */
  function Tally(planets: seq<Planet>, plcount: seq<int>): (r: seq<int>)
    requires |plcount| == TEAMCODES
    ensures |r| == TEAMCODES
  {
    seq(TEAMCODES, t requires 0 <= t < TEAMCODES =>
      (if t == NOBODY || t in TEAMS then 0 else plcount[t]) + CountOwned(planets, t))
  }

  /** checkwin: recount, perhaps end a surrender countdown, and say whether the galaxy is won. */
  function CheckWin(w: World, cfg: Config, winner: nat): (r: (World, bool))
    requires WellFormed(w) && winner < TEAMCODES
    ensures Shaped(w, r.0)
  {
    if cfg.inl then (w, false)
    else
      var counted := w.(plcount := Tally(w.planets, w.plcount));
      var saved := if counted.surrender[winner] > 0 && counted.plcount[winner] == SURREND
                   then counted.(surrender := counted.surrender[winner := 0]) else counted;
      (saved, Victory(w.planets))
  }

  function CountPlayers(ships: seq<Ship>, t: nat): nat {
    if ships == [] then 0
    else
      var s := ships[|ships| - 1];
      CountPlayers(ships[..|ships| - 1], t) + if !s.free && s.team == t then 1 else 0
  }

  /** What random() gives one ship's turn: `pass` decides "sometimes", `gifts` the armies. */
  datatype Draw = Draw(pass: nat, gifts: seq<nat>, coupTime: int)

  function Gift(l: Planet, winner: nat, gift: nat, count: nat): int
    requires count > 0
  {
    if l.owner == winner then gift % (2 * count) else 0
  }

  /** addTroops: give armies to the planets of the winning team. */
  function AddTroops(w: World, loser: nat, winner: nat, d: Draw): (r: World)
    requires WellFormed(w) && |d.gifts| == |w.planets|
    ensures Shaped(w, r)
  {
    var count := CountPlayers(w.ships, loser);
    if count < 3 then w
    else if count < 6 && d.pass % count == 0 then w
    else
      w.(planets := seq(|w.planets|, p requires 0 <= p < |w.planets| =>
           w.planets[p].(armies := w.planets[p].armies + Gift(w.planets[p], winner, d.gifts[p], count))),
         granted := w.granted + Gifts(w.planets, winner, d.gifts, count))
  }

  function Gifts(planets: seq<Planet>, winner: nat, gifts: seq<nat>, count: nat): int
    requires |planets| == |gifts| && count > 0
  {
    if planets == [] then 0
    else
      var n := |planets| - 1;
      Gifts(planets[..n], winner, gifts[..n], count) + Gift(planets[n], winner, gifts[n], count)
  }

  /** The last capital of the loser, whose coup timer is set; -1 if it has none. */
  function Capital(planets: seq<Planet>, t: nat): (r: int)
    ensures -1 <= r < |planets|
  {
    if planets == [] then -1
    else
      var n := |planets| - 1;
      if planets[n].home == t && planets[n].capital then n else Capital(planets[..n], t)
  }

  function KillTeam(ships: seq<Ship>, t: nat): (r: seq<Ship>)
    ensures |r| == |ships|
  {
    seq(|ships|, i requires 0 <= i < |ships| => if ships[i].team == t then ships[i].(alive := false) else ships[i])
  }

  /** The last planet is lost: troops for the winner, deaths and a coup timer for the loser. */
  function Genocide(w: World, loser: nat, winner: nat, d: Draw): (r: World)
    requires WellFormed(w) && |d.gifts| == |w.planets|
    ensures Shaped(w, r)
  {
    var given := AddTroops(w, loser, winner, d);
    var killed := given.(ships := KillTeam(given.ships, loser));
    var h := Capital(killed.planets, loser);
    if h == -1 then killed else PutPlanet(killed, h, killed.planets[h].(coupTime := d.coupTime))
  }

  /** The census of checkgen, which may start a surrender countdown. */
  function Recounted(w: World, cfg: Config, loser: nat): (r: World)
    requires WellFormed(w) && loser < TEAMCODES
    ensures Shaped(w, r)
  {
    var counted := w.(plcount := Census(w.planets));
    if counted.surrender[loser] == 0 && counted.plcount[loser] == cfg.surrenderStart
    then counted.(surrender := counted.surrender[loser := cfg.minutes]) else counted
  }

  /** checkgen: the census after `loser` lost a planet to `winner`'s ship. */
  function CheckGen(w: World, cfg: Config, loser: nat, winner: nat, d: Draw): (r: World)
    requires WellFormed(w) && loser < TEAMCODES && winner < TEAMCODES && |d.gifts| == |w.planets|
    ensures Shaped(w, r)
  {
    if cfg.inl then w
    else
      var clock := Recounted(w, cfg, loser);
      if clock.plcount[loser] > 0 then clock
      else
        var checked := CheckWin(clock.(surrender := clock.surrender[loser := 0]), cfg, winner);
        if checked.1 then checked.0 else Genocide(checked.0, loser, winner, d)
  }

  // ---- Beaming ----

  predicate MayBeamUp(w: World, i: nat)
    requires WellFormed(w) && i < |w.ships|
  {
    var j := w.ships[i];
    var l := w.planets[j.planet];
    && (j.orbit ==> l.armies >= 5)
    && (j.dock ==> w.ships[j.dockWith].armies >= 1)
    && j.armies < j.maxArmies
    && (j.kind != Starbase ==> j.armies < j.carry)
    && (j.orbit ==> j.team == l.owner && l.owner !in j.war)
  }

  /** Armies move between a ship and the planet it orbits. */
  function Exchange(w: World, i: nat, up: int): (r: World)
    requires WellFormed(w) && i < |w.ships|
    ensures Shaped(w, r)
  {
    var j := w.ships[i];
    var l := w.planets[j.planet];
    PutPlanet(PutShip(w, i, j.(armies := j.armies + up)), j.planet, l.(armies := l.armies - up))
  }

  /** The ships after `up` armies have moved from ship k to ship i. */
  function Boarded(ships: seq<Ship>, i: nat, k: nat, up: int): (r: seq<Ship>)
    requires i < |ships| && k < |ships|
    ensures |r| == |ships|
  {
    var boarded := ships[i := ships[i].(armies := ships[i].armies + up)];
    boarded[k := boarded[k].(armies := boarded[k].armies - up)]
  }

  /** Armies move between a ship and the base it is docked to. */
  function Transfer(w: World, i: nat, up: int): (r: World)
    requires WellFormed(w) && i < |w.ships|
    ensures Shaped(w, r)
  {
    w.(ships := Boarded(w.ships, i, w.ships[i].dockWith, up))
  }

  function BeamUp(w: World, i: nat): (r: World)
    requires WellFormed(w) && i < |w.ships| && (w.ships[i].orbit || w.ships[i].dock)
    ensures Shaped(w, r)
  {
    if !MayBeamUp(w, i) then w
    else if w.ships[i].orbit then Exchange(w, i, 1)
    else Transfer(w, i, 1)
  }

  /** One army lands against a garrison and takes one with it; the last one leaves the planet
      to nobody. */
  function Attack(w: World, i: nat): (r: World)
    requires WellFormed(w) && i < |w.ships|
    ensures Shaped(w, r)
  {
    var j := w.ships[i];
    var l := w.planets[j.planet];
    var left := l.armies - 1;
    PutPlanet(PutShip(w, i, j.(armies := j.armies - 1)), j.planet,
              l.(armies := left, owner := if left == 0 then NOBODY else l.owner)).(attacks := w.attacks + 1)
  }

  /** One army lands on an empty planet and takes it over. */
  function TakeOver(w: World, i: nat): (r: World)
    requires WellFormed(w) && i < |w.ships|
    ensures Shaped(w, r)
  {
    var j := w.ships[i];
    PutPlanet(PutShip(w, i, j.(armies := j.armies - 1)), j.planet,
              w.planets[j.planet].(armies := 1, owner := j.team))
  }

  /** One army lands on a planet that is not the ship's own; true if the pass ends in conquest. */
  function Land(w: World, cfg: Config, i: nat, d: Draw): (r: (World, bool))
    requires WellFormed(w) && i < |w.ships| && |d.gifts| == |w.planets|
    ensures Shaped(w, r.0)
  {
    var j := w.ships[i];
    var l := w.planets[j.planet];
    if l.armies == 0 then CheckWin(TakeOver(w, i), cfg, j.team)
    else if l.armies == 1 then (CheckGen(Attack(w, i), cfg, l.owner, j.team, d), false)
    else (Attack(w, i), false)
  }

  function BeamDown(w: World, cfg: Config, i: nat, d: Draw): (r: (World, bool))
    requires WellFormed(w) && i < |w.ships| && |d.gifts| == |w.planets|
    ensures Shaped(w, r.0)
  {
    var j := w.ships[i];
    var l := w.planets[j.planet];
    if j.armies == 0 then (w, false)
    else if j.orbit then
      if l.owner !in j.war && j.team != l.owner && l.owner != NOBODY then (w, false)
      else if j.team != l.owner then Land(w, cfg, i, d)
      else (Exchange(w, i, -1), false)
    else if j.dock then
      var base := w.ships[j.dockWith];
      if base.team != j.team || base.armies >= base.maxArmies then (w, false)
      else (Transfer(w, i, -1), false)
    else (w, false)
  }

  function BeamShip(w: World, cfg: Config, i: nat, d: Draw): (r: (World, bool))
    requires WellFormed(w) && i < |w.ships| && |d.gifts| == |w.planets|
    ensures Shaped(w, r.0)
  {
    var j := w.ships[i];
    if !j.alive || !(j.orbit || j.dock) then (w, false)
    else if j.beamUp then (BeamUp(w, i), false)
    else if j.beamDown then BeamDown(w, cfg, i, d)
    else (w, false)
  }

  // ---- Population ----

  /** random() in PopPlanet: plague, one army for the weak, extra armies, agriculture. */
  datatype Growth = Growth(plague: nat, weak: bool, extra: nat, agri: bool)

  predicate GrowthOk(g: Growth) {
    g.plague < 4500 && g.extra <= 3
  }

  function PlagueLoss(armies: int, roll: nat): int
    requires armies >= 0
  {
    (roll + armies * armies) / 4500
  }

  function AfterPlague(l: Planet, cfg: Config, g: Growth): int {
    if cfg.plague && l.armies > 5 then l.armies - PlagueLoss(l.armies, g.plague) else l.armies
  }

  /** Growth after the plague: weak planets first, then extra armies, then agriculture. */
  function Grown(armies: int, agri: bool, g: Growth): int {
    var weak := if armies < 4 then armies + (if g.weak then 1 else 0) + (if agri then 1 else 0) else armies;
    weak + g.extra + (if agri && g.agri then 1 else 0)
  }

  function PopPlanet(l: Planet, cfg: Config, g: Growth): Planet {
    if l.armies == 0 || (l.armies >= cfg.maxPop && !cfg.tourn) then l
    else l.(armies := Grown(AfterPlague(l, cfg, g), l.agri, g))
  }

  // ---- Fighting ----

  function Overthrow(l: Planet): Planet {
    if l.coup then l.(coup := false, owner := l.home, armies := 4) else l
  }

  /** Armies destroyed by a bombing run that rolls `rnd` out of 100; 0 is a miss. */
  function Bombed(rnd: nat, kind: Kind): nat {
    if rnd < 50 then 0
    else (if rnd < 80 then 1 else if rnd < 90 then 2 else 3) + (if kind == Assault then 1 else 0)
  }

  function Bomb(w: World, i: nat, rnd: nat): (r: World)
    requires WellFormed(w) && i < |w.ships|
    ensures Shaped(w, r)
  {
    var j := w.ships[i];
    var l := w.planets[j.planet];
    if !j.alive || !j.orbit || !j.bomb || j.team == l.owner || l.owner !in j.war || l.armies < 5 then w
    else PutPlanet(w, j.planet, l.(armies := l.armies - Bombed(rnd, j.kind)))
  }

  // ---- Coups, surrender, ghosts ----

  /** coup(): the conditions for a ship to overthrow its home planet. */
  predicate MayCoup(w: World, i: nat)
    requires WellFormed(w) && i < |w.ships|
  {
    var j := w.ships[i];
    var l := w.planets[j.planet];
    && j.kills && j.orbit
    && (forall p :: 0 <= p < |w.planets| ==> !(w.planets[p].owner == j.team && w.planets[p].armies > 0))
    && l.capital && l.home == j.team && l.armies <= 4 && l.coupTime <= 0 && !l.coup
  }

  function Coup(w: World, i: nat): (r: World)
    requires WellFormed(w) && i < |w.ships|
    ensures Shaped(w, r)
  {
    if MayCoup(w, i) then PutPlanet(w, w.ships[i].planet, w.planets[w.ships[i].planet].(coup := true)) else w
  }

  /** A race that surrenders loses its planets and its ships. */
  function Neutralize(w: World, t: nat, coupTimes: seq<int>): World
    requires |coupTimes| == |w.planets|
  {
    w.(planets := seq(|w.planets|, p requires 0 <= p < |w.planets| =>
         var l := w.planets[p];
         var timed := if l.home == t && l.capital then l.(coupTime := coupTimes[p]) else l;
         if l.owner == t then timed.(owner := NOBODY, armies := 0) else timed),
       ships := KillTeam(w.ships, t))
  }

  /** One team's minute in udsurrend; `few` says it has too few players for the countdown. */
  function SurrenderTick(w: World, cfg: Config, t: nat, few: bool, coupTimes: seq<int>): (r: World)
    requires WellFormed(w) && t < TEAMCODES && |coupTimes| == |w.planets|
    ensures Shaped(w, r)
  {
    if w.surrender[t] == 0 || few || w.plcount[t] > cfg.surrenderStart then w
    else
      var w1 := w.(surrender := w.surrender[t := w.surrender[t] - 1]);
      if w1.surrender[t] == 0 then Neutralize(w1, t, coupTimes) else w1
  }

  /** The first planet of a team's home space; -1 for no team. */
  function HomeSpace(team: nat): int {
    if team == FED then 0 else if team == ROM then 10 else if team == KLI then 20 else if team == ORI then 30 else -1
  }

  /** The first of ten planets, from `p` on, that `team` owns; -1 if there is none. */
  function OwnedIn(planets: seq<Planet>, team: nat, p: nat, end: nat): (r: int)
    requires p <= end <= |planets|
    ensures r == -1 || (p <= r < end && planets[r].owner == team)
    decreases end - p
  {
    if p == end then -1 else if planets[p].owner == team then p else OwnedIn(planets, team, p + 1, end)
  }

  /** All armies of ship i go to planet p. */
  function Settle(w: World, i: nat, p: nat): (r: World)
    requires WellFormed(w) && i < |w.ships| && p < |w.planets|
    ensures Shaped(w, r)
  {
    var v := w.ships[i];
    PutShip(PutPlanet(w, p, w.planets[p].(armies := w.planets[p].armies + v.armies)), i, v.(armies := 0))
  }

  /** ghostmess: the armies of a ghostbusted ship go to a planet of its team in its home space. */
  function Rescue(w: World, i: nat): (r: World)
    requires WellFormed(w) && i < |w.ships|
    ensures Shaped(w, r)
  {
    var v := w.ships[i];
    if v.observer || v.armies <= 0 || HomeSpace(v.team) == -1 then w
    else
      var p := OwnedIn(w.planets, v.team, HomeSpace(v.team), HomeSpace(v.team) + 10);
      if p == -1 then w else Settle(w, i, p)
  }

  // ---- Whole passes of the daemon ----

  /** beam(), from ship `i` on: the ships in slot order, until a conquest ends the pass. */
  function BeamPass(w: World, cfg: Config, i: nat, draws: seq<Draw>): (r: World)
    requires WellFormed(w) && i <= |w.ships| == |draws|
    requires forall d :: d in draws ==> |d.gifts| == MAXPLANETS
    ensures Shaped(w, r)
    decreases |draws| - i
  {
    if i == |w.ships| then w
    else
      assert draws[i] in draws;
      var turn := BeamShip(w, cfg, i, draws[i]);
      if turn.1 then turn.0 else BeamPass(turn.0, cfg, i + 1, draws)
  }

  function OverthrowAll(planets: seq<Planet>): seq<Planet> {
    seq(|planets|, p requires 0 <= p < |planets| => Overthrow(planets[p]))
  }

  /** plfight(), after the coups: the ships bomb in slot order. */
  function BombPass(w: World, n: nat, rolls: seq<nat>): (r: World)
    requires WellFormed(w) && n <= |w.ships| == |rolls|
    ensures Shaped(w, r)
  {
    if n == 0 then w else Bomb(BombPass(w, n - 1, rolls), n - 1, rolls[n - 1])
  }

  /** udsurrend(): coup timers, then, in tournament mode, every team code. */
  function TickCoups(planets: seq<Planet>): seq<Planet> {
    seq(|planets|, p requires 0 <= p < |planets| =>
      if planets[p].coupTime != 0 then planets[p].(coupTime := planets[p].coupTime - 1) else planets[p])
  }

  function SurrenderPass(w: World, cfg: Config, n: nat, few: seq<bool>, coupTimes: seq<int>): (r: World)
    requires WellFormed(w) && n <= TEAMCODES == |few| && |coupTimes| == MAXPLANETS
    ensures Shaped(w, r)
  {
    if n == 0 then w
    else SurrenderTick(SurrenderPass(w, cfg, n - 1, few, coupTimes), cfg, n - 1, few[n - 1], coupTimes)
  }
}
