/** What bombing, coups, growth, a surrender minute and a ghost's rescue do, field by field. */
module ArmyEvents {
  import opened Armies
  import opened ArmySafety

  // ---- Bombing and coups ----

  /** What a bombing run destroys: nothing in half of the cases, otherwise one, two or three armies, and
      one more from an assault ship. */
  predicate Destroys(rnd: nat, kind: Kind, loss: int) {
    && (rnd < 50 ==> loss == 0)
    && (50 <= rnd < 80 ==> loss == if kind.Assault? then 2 else 1)
    && (80 <= rnd < 90 ==> loss == if kind.Assault? then 3 else 2)
    && (90 <= rnd ==> loss == if kind.Assault? then 4 else 3)
  }

  /** A ship that bombs: in orbit of a planet of a team it is at war with, with at least five armies. */
  predicate MayBomb(w: World, i: nat)
    requires i < |w.ships| && w.ships[i].planet < |w.planets|
  {
    var j, l := w.ships[i], w.planets[w.ships[i].planet];
    j.alive && j.orbit && j.bomb && j.team != l.owner && l.owner in j.war && l.armies >= 5
  }

  /** One ship's bombing run. */
  ghost predicate BombTurn(w: World, w': World, i: nat, rnd: nat)
    requires i < |w.ships| && w.ships[i].planet < |w.planets|
  {
    var p := w.ships[i].planet;
    if !MayBomb(w, i) then w' == w
    else exists loss: int ::
      && Destroys(rnd, w.ships[i].kind, loss)
      && w' == w.(planets := w.planets[p := w.planets[p].(armies := w.planets[p].armies - loss)])
  }

  /** The first n ships bomb in slot order. */
  ghost predicate Bombing(w: World, w': World, n: nat, rolls: seq<nat>)
    requires WellFormed(w) && n <= |w.ships| == |rolls|
    decreases n
  {
    if n == 0 then w' == w
    else exists before: World ::
      && Bombing(w, before, n - 1, rolls) && WellFormed(before) && |before.ships| == |w.ships|
      && BombTurn(before, w', n - 1, rolls[n - 1])
  }

  lemma {:induction false} BombExactly(w: World, i: nat, rnd: nat) returns (w': World)
    requires WellFormed(w) && i < |w.ships|
    ensures w' == Bomb(w, i, rnd) && BombTurn(w, w', i, rnd)
  {
    w' := Bomb(w, i, rnd);
    assert Destroys(rnd, w.ships[i].kind, Bombed(rnd, w.ships[i].kind));
  }

  lemma {:induction false} BombPassExactly(w: World, n: nat, rolls: seq<nat>) returns (w': World)
    requires WellFormed(w) && n <= |w.ships| == |rolls|
    ensures w' == BombPass(w, n, rolls) && Shaped(w, w') && Bombing(w, w', n, rolls)
  {
    if n == 0 {
      w' := w;
    } else {
      var before := BombPassExactly(w, n - 1, rolls);
      w' := BombExactly(before, n - 1, rolls[n - 1]);
    }
  }

  /** Every planet with a coup goes to its home team, with four armies. */
  ghost predicate Overthrown(planets: seq<Planet>, planets': seq<Planet>) {
    && |planets'| == |planets|
    && forall p :: 0 <= p < |planets| ==>
         planets'[p] == if planets[p].coup then planets[p].(coup := false, owner := planets[p].home, armies := 4) else planets[p]
  }

  /** Main result: a fight is the end of all coups, and then the bombing runs in slot order. */
  lemma {:induction false} FightExactly(w: World, cfg: Config, rolls: seq<nat>) returns (taken: World, w': World)
    requires WellFormed(w) && |rolls| == |w.ships|
    ensures w' == Apply(w, cfg, Fight(rolls))
    ensures taken == w.(planets := taken.planets) && Overthrown(w.planets, taken.planets)
    ensures WellFormed(taken) && Bombing(taken, w', |w.ships|, rolls)
  {
    taken := w.(planets := OverthrowAll(w.planets));
    w' := BombPassExactly(taken, |w.ships|, rolls);
  }

  /** A coup is thrown exactly by a ship entitled to one, in orbit of its own capital, while its team
      owns no planet with armies, the capital has at most four, and its timer has run out. */
  lemma {:induction false} CoupExactly(w: World, cfg: Config, i: nat)
    requires WellFormed(w) && i < |w.ships|
    ensures var j, p, w' := w.ships[i], w.ships[i].planet, Apply(w, cfg, ThrowCoup(i));
            var l := w.planets[p];
            if && j.kills && j.orbit && l.capital && l.home == j.team && l.armies <= 4 && l.coupTime <= 0 && !l.coup
               && forall q :: 0 <= q < |w.planets| && w.planets[q].owner == j.team ==> w.planets[q].armies <= 0
            then w' == w.(planets := w.planets[p := l.(coup := true)]) else w' == w
  {
  }

  // ---- Growth ----

  function One(b: bool): nat {
    if b then 1 else 0
  }

  /** What the plague leaves: it takes the square of the armies, plus the roll, in units of 4500, from
      garrisons of more than five. */
  predicate Plagued(armies: int, left: int, plague: bool, roll: nat) {
    if plague && armies > 5 then
      var loss := armies - left;
      4500 * loss <= roll + armies * armies < 4500 * (loss + 1)
    else left == armies
  }

  /** Empty planets do not grow, nor do full ones outside tournament play; otherwise the plague comes
      first, then one army and one for agriculture if fewer than four are left, then the extra armies,
      then one more for agriculture. */
  lemma {:induction false} PopulateExactly(l: Planet, cfg: Config, g: Growth) returns (left: int)
    requires l.armies >= 0
    ensures var l' := PopPlanet(l, cfg, g);
            && l' == l.(armies := l'.armies)
            && Plagued(l.armies, left, cfg.plague, g.plague)
            && l'.armies == if l.armies == 0 || (l.armies >= cfg.maxPop && !cfg.tourn) then l.armies
                            else left + One(left < 4 && g.weak) + One(left < 4 && l.agri) + g.extra + One(l.agri && g.agri)
  {
    left := AfterPlague(l, cfg, g);
    var square := l.armies * l.armies;
    assert PlagueLoss(l.armies, g.plague) == (g.plague + square) / 4500;
  }

  // ---- Surrender ----

  /** The countdown of team code t runs: it has been started, the team has players enough, and it has no
      more planets than the number that started it. */
  predicate Runs(w: World, cfg: Config, t: nat, few: seq<bool>)
    requires t < |w.surrender| == |w.plcount| == |few|
  {
    w.surrender[t] != 0 && !few[t] && w.plcount[t] <= cfg.surrenderStart
  }

  /** Its last minute is over. */
  predicate Ends(w: World, cfg: Config, t: nat, few: seq<bool>)
    requires |w.surrender| == |w.plcount| == |few|
  {
    t < |few| && Runs(w, cfg, t, few) && w.surrender[t] == 1
  }

  /** A minute of the first n team codes: countdowns that run go down by one, and the races whose
      countdown ends lose their planets and their ships; their capitals get a coup timer. */
  ghost predicate Minute(w: World, w': World, cfg: Config, n: nat, few: seq<bool>, coupTimes: seq<int>)
    requires WellFormed(w) && n <= |few| == 16 && |coupTimes| == 40
  {
    && |w'.planets| == |w.planets| && |w'.ships| == |w.ships| && |w'.surrender| == 16
    && w' == w.(planets := w'.planets, ships := w'.ships, surrender := w'.surrender)
    && (forall t: nat :: t < 16 ==>
          w'.surrender[t] == if t < n && Runs(w, cfg, t, few) then w.surrender[t] - 1 else w.surrender[t])
    && (forall i :: 0 <= i < |w.ships| ==>
          w'.ships[i] == if w.ships[i].team < n && Ends(w, cfg, w.ships[i].team, few) then w.ships[i].(alive := false) else w.ships[i])
    && forall p :: 0 <= p < |w.planets| ==> MinutePlanet(w, cfg, n, few, w.planets[p], w'.planets[p], coupTimes[p])
  }

  predicate MinutePlanet(w: World, cfg: Config, n: nat, few: seq<bool>, l: Planet, l': Planet, coupTime: int)
    requires |w.surrender| == |w.plcount| == |few|
  {
    && l' == l.(owner := l'.owner, armies := l'.armies, coupTime := l'.coupTime)
    && (if l.owner < n && Ends(w, cfg, l.owner, few) then l'.owner == 0 && l'.armies == 0
        else l'.owner == l.owner && l'.armies == l.armies)
    && l'.coupTime == if l.capital && l.home < n && Ends(w, cfg, l.home, few) then coupTime else l.coupTime
  }

  /** One team code's turn, on one planet. */
  lemma {:induction false} MinuteNext(w: World, w1: World, cfg: Config, n: nat, few: seq<bool>, coupTimes: seq<int>, p: nat)
    requires WellFormed(w) && WellFormed(w1) && n < 16 == |few| && |coupTimes| == 40 && p < 40
    requires Minute(w, w1, cfg, n, few, coupTimes)
    ensures var w2 := SurrenderTick(w1, cfg, n, few[n], coupTimes);
            MinutePlanet(w, cfg, n + 1, few, w.planets[p], w2.planets[p], coupTimes[p])
  {
    assert MinutePlanet(w, cfg, n, few, w.planets[p], w1.planets[p], coupTimes[p]);
    assert w1.surrender[n] == w.surrender[n];
  }

  lemma {:induction false} MinuteShips(w: World, w1: World, cfg: Config, n: nat, few: seq<bool>, coupTimes: seq<int>, i: nat)
    requires WellFormed(w) && WellFormed(w1) && n < 16 == |few| && |coupTimes| == 40 && i < |w.ships|
    requires Minute(w, w1, cfg, n, few, coupTimes)
    ensures var w2, s := SurrenderTick(w1, cfg, n, few[n], coupTimes), w.ships[i];
            w2.ships[i] == if s.team < n + 1 && Ends(w, cfg, s.team, few) then s.(alive := false) else s
  {
    assert w1.surrender[n] == w.surrender[n];
  }

  lemma {:induction false} MinuteExactly(w: World, cfg: Config, n: nat, few: seq<bool>, coupTimes: seq<int>) returns (w': World)
    requires WellFormed(w) && n <= TEAMCODES == |few| && |coupTimes| == MAXPLANETS
    ensures w' == SurrenderPass(w, cfg, n, few, coupTimes) && Shaped(w, w') && Minute(w, w', cfg, n, few, coupTimes)
  {
    if n == 0 {
      w' := w;
    } else {
      var w1 := MinuteExactly(w, cfg, n - 1, few, coupTimes);
      w' := MinuteStep(w, w1, cfg, n - 1, few, coupTimes);
    }
  }

  lemma {:induction false} MinuteStep(w: World, w1: World, cfg: Config, n: nat, few: seq<bool>, coupTimes: seq<int>)
      returns (w2: World)
    requires WellFormed(w) && WellFormed(w1) && n < 16 == |few| && |coupTimes| == 40
    requires Minute(w, w1, cfg, n, few, coupTimes)
    ensures w2 == SurrenderTick(w1, cfg, n, few[n], coupTimes) && Minute(w, w2, cfg, n + 1, few, coupTimes)
  {
    w2 := SurrenderTick(w1, cfg, n, few[n], coupTimes);
    forall p | 0 <= p < 40
      ensures MinutePlanet(w, cfg, n + 1, few, w.planets[p], w2.planets[p], coupTimes[p])
    {
      MinuteNext(w, w1, cfg, n, few, coupTimes, p);
    }
    forall i | 0 <= i < |w.ships|
      ensures w2.ships[i] == if w.ships[i].team < n + 1 && Ends(w, cfg, w.ships[i].team, few) then w.ships[i].(alive := false)
                             else w.ships[i]
    {
      MinuteShips(w, w1, cfg, n, few, coupTimes, i);
    }
    MinuteClocks(w, w1, cfg, n, few, coupTimes);
  }

  lemma {:induction false} MinuteClocks(w: World, w1: World, cfg: Config, n: nat, few: seq<bool>, coupTimes: seq<int>)
    requires WellFormed(w) && WellFormed(w1) && n < 16 == |few| && |coupTimes| == 40
    requires Minute(w, w1, cfg, n, few, coupTimes)
    ensures var w2 := SurrenderTick(w1, cfg, n, few[n], coupTimes);
            && w2 == w.(planets := w2.planets, ships := w2.ships, surrender := w2.surrender)
            && forall t: nat :: t < 16 ==>
                 w2.surrender[t] == if t < n + 1 && Runs(w, cfg, t, few) then w.surrender[t] - 1 else w.surrender[t]
  {
    assert w1.surrender[n] == w.surrender[n];
  }

  /** Main result: a surrender minute lets every coup timer run, and, in tournament play, every team's
      countdown. */
  lemma {:induction false} SurrenderExactly(w: World, cfg: Config, few: seq<bool>, coupTimes: seq<int>) returns (ticked: World, w': World)
    requires WellFormed(w) && |few| == TEAMCODES && |coupTimes| == MAXPLANETS
    ensures w' == Apply(w, cfg, SurrenderMinute(few, coupTimes))
    ensures WellFormed(ticked) && |ticked.planets| == |w.planets| && ticked == w.(planets := ticked.planets)
    ensures forall p :: 0 <= p < |w.planets| ==>
              ticked.planets[p] == w.planets[p].(coupTime := w.planets[p].coupTime - One(w.planets[p].coupTime != 0))
    ensures if cfg.tourn then Minute(ticked, w', cfg, 16, few, coupTimes) else w' == ticked
  {
    ticked := w.(planets := TickCoups(w.planets));
    if cfg.tourn { w' := MinuteExactly(ticked, cfg, TEAMCODES, few, coupTimes); } else { w' := ticked; }
  }

  // ---- Ghosts ----

  /** The ten planets of a team's home space. */
  predicate HomePlanet(team: nat, p: nat) {
    (team == 1 && p < 10) || (team == 2 && 10 <= p < 20) || (team == 4 && 20 <= p < 30) || (team == 8 && 30 <= p < 40)
  }

  /** The first planet that the team owns in its home space. */
  ghost predicate FirstHome(planets: seq<Planet>, team: nat, p: nat) {
    && p < |planets| && HomePlanet(team, p) && planets[p].owner == team
    && forall q: nat :: q < p && HomePlanet(team, q) ==> planets[q].owner != team
  }

  /** A ghost's armies go to the first planet its team owns in its home space, if it carries any, is no
      observer, and there is such a planet; otherwise nothing changes. */
  lemma {:induction false} RescueExactly(w: World, cfg: Config, i: nat)
    requires WellFormed(w) && i < |w.ships|
    ensures var v, w' := w.ships[i], Apply(w, cfg, GhostBust(i));
            if v.observer || v.armies <= 0 || forall p: nat :: p < 40 ==> !FirstHome(w.planets, v.team, p) then w' == w
            else forall p: nat :: FirstHome(w.planets, v.team, p) ==>
              w' == w.(planets := w.planets[p := w.planets[p].(armies := w.planets[p].armies + v.armies)],
                       ships := w.ships[i := v.(armies := 0)])
  {
    var v := w.ships[i];
    HomeExactly(w.planets, v.team);
    var k := HomeSpace(v.team);
    if k != -1 && OwnedIn(w.planets, v.team, k, k + 10) != -1 {
      assert FirstHome(w.planets, v.team, OwnedIn(w.planets, v.team, k, k + 10));
    }
  }

  /** The search of ghostmess finds the first planet of the home space. */
  lemma {:induction false} HomeExactly(planets: seq<Planet>, team: nat)
    requires |planets| == MAXPLANETS
    ensures var k := HomeSpace(team);
            forall p: nat :: FirstHome(planets, team, p) <==> k != -1 && OwnedIn(planets, team, k, k + 10) == p
    ensures var k := HomeSpace(team);
            k == -1 || OwnedIn(planets, team, k, k + 10) == -1 || 0 <= OwnedIn(planets, team, k, k + 10) < 40
  {
    var k := HomeSpace(team);
    if k != -1 {
      assert forall p: nat :: p < 40 ==> (HomePlanet(team, p) <==> k <= p < k + 10);
      OwnedInExactly(planets, team, k, k + 10);
    }
  }

  lemma {:induction false} OwnedInExactly(planets: seq<Planet>, team: nat, p: nat, end: nat)
    requires p <= end <= |planets|
    ensures var h := OwnedIn(planets, team, p, end);
            && (h == -1 <==> forall q :: p <= q < end ==> planets[q].owner != team)
            && (h != -1 ==> forall q :: p <= q < h ==> planets[q].owner != team)
    decreases end - p
  {
    if p < end && planets[p].owner != team { OwnedInExactly(planets, team, p + 1, end); }
  }
}
