/** Who is seen (ntserv/daemon.c, udplayersight): a search for an enemy in range, shortened by
    remembering the player who saw a ship last. */
module Sight {

  const GWIDTH: nat := 100000
  const VACANT: int := -1

  datatype Player = Player(alive: bool, orbit: bool, planet: nat, robot: bool, team: nat, x: int, y: int,
                           cloak: bool, seen: bool, lastSeenBy: int)

  /** The players and the owners of the planets. */
  datatype World = World(players: seq<Player>, owners: seq<nat>)

  predicate WellFormed(w: World) {
    forall j :: 0 <= j < |w.players| ==>
      w.players[j].planet < |w.owners| && VACANT <= w.players[j].lastSeenBy < |w.players|
  }

  function Reach(j: Player): int {
    if j.cloak then GWIDTH / 7 else GWIDTH / 3
  }

  function DistSq(j: Player, k: Player): int {
    (k.x - j.x) * (k.x - j.x) + (k.y - j.y) * (k.y - j.y)
  }

  /** Orbiting a planet of others, or being dead, shows a ship to everybody. */
  predicate Exposed(w: World, j: nat)
    requires WellFormed(w) && j < |w.players|
  {
    !w.players[j].alive || (w.players[j].orbit && w.owners[w.players[j].planet] != w.players[j].team)
  }

  /** Player k may see player j. */
  predicate Enemy(j: Player, k: Player) {
    !k.robot && k.team != j.team
  }

  predicate Sees(j: Player, k: Player) {
    k.alive && Enemy(j, k) && DistSq(j, k) <= Reach(j) * Reach(j)
  }

  /** What the flag should be. */
  ghost predicate Visible(w: World, j: nat)
    requires WellFormed(w) && j < |w.players|
  {
    Exposed(w, j) || exists k :: 0 <= k < |w.players| && Sees(w.players[j], w.players[k])
  }

  // ---- The update ----

  predicate CacheHit(w: World, j: nat)
    requires WellFormed(w) && j < |w.players|
  {
    var p := w.players[j];
    p.lastSeenBy != VACANT && w.players[p.lastSeenBy].alive
    && DistSq(p, w.players[p.lastSeenBy]) < Reach(p) * Reach(p)
  }

  /** The search of the enemies, box test first. */
  predicate Found(j: Player, k: Player) {
    k.alive && !k.robot && k.team != j.team
    && -Reach(j) <= k.x - j.x <= Reach(j) && -Reach(j) <= k.y - j.y <= Reach(j)
    && DistSq(j, k) <= Reach(j) * Reach(j)
  }

  function Search(players: seq<Player>, j: Player, k: nat): (r: int)
    requires k <= |players|
    ensures r == VACANT || (k <= r < |players| && Found(j, players[r]))
    ensures r == VACANT ==> forall i :: k <= i < |players| ==> !Found(j, players[i])
    decreases |players| - k
  {
    if k == |players| then VACANT else if Found(j, players[k]) then k else Search(players, j, k + 1)
  }

  function UpdateOne(w: World, j: nat): Player
    requires WellFormed(w) && j < |w.players|
  {
    var p := w.players[j];
    if Exposed(w, j) then p.(seen := true)
    else if CacheHit(w, j) then p
    else
      var k := Search(w.players, p, 0);
      p.(seen := k != VACANT, lastSeenBy := k)
  }

  /** One update; a player's new flags depend on nobody's flags but its own. */
  function Update(w: World): (r: World)
    requires WellFormed(w)
    ensures WellFormed(r) && |r.players| == |w.players|
  {
    w.(players := seq(|w.players|, j requires 0 <= j < |w.players| => UpdateOne(w, j)))
  }

  // ---- The update in place ----

  class Daemon {
    const players: array<Player>
    var owners: seq<nat>

    ghost function Model(): World
      reads this, players
    {
      World(players[..], owners)
    }

    constructor (initial: seq<Player>, planetOwners: seq<nat>)
      ensures fresh(players) && Model() == World(initial, planetOwners)
    {
      players := new Player[|initial|](i requires 0 <= i < |initial| => initial[i]);
      owners := planetOwners;
    }

    method UdPlayerSight()
      requires WellFormed(Model())
      modifies players
      ensures Model() == Update(old(Model()))
    {
      ghost var start := Model();
      for j := 0 to players.Length
        invariant owners == start.owners
        invariant forall i :: 0 <= i < j ==> players[i] == UpdateOne(start, i)
        invariant forall i :: j <= i < players.Length ==> players[i] == start.players[i]
      {
        assert forall i :: 0 <= i < players.Length ==> SameShip(players[i], start.players[i]);
        UpdatePlayer(j, start);
      }
    }

    method UpdatePlayer(j: nat, ghost start: World)
      requires WellFormed(start) && owners == start.owners
      requires j < players.Length == |start.players| && players[j] == start.players[j]
      requires forall i :: 0 <= i < players.Length ==> SameShip(players[i], start.players[i])
      modifies players
      ensures players[..] == old(players[..])[j := UpdateOne(start, j)]
    {
      var p := players[j];
      if !p.alive || (p.orbit && owners[p.planet] != p.team) {
        players[j] := p.(seen := true);
        return;
      }
      var maxDist := if p.cloak then GWIDTH / 7 else GWIDTH / 3;
      if p.lastSeenBy != VACANT {
        var k := players[p.lastSeenBy];
        assert SameShip(k, start.players[p.lastSeenBy]);
        if k.alive && DistSq(p, k) < maxDist * maxDist { return; }
      }
      SearchEnemy(j, start);
    }

    /** Clear the flag of player j, and set it again if an enemy is in range. */
    method SearchEnemy(j: nat, ghost start: World)
      requires j < players.Length == |start.players| && players[j] == start.players[j]
      requires forall i :: 0 <= i < players.Length ==> SameShip(players[i], start.players[i])
      modifies players
      ensures var k := Search(start.players, start.players[j], 0);
              players[..] == old(players[..])[j := old(players[j]).(seen := k != VACANT, lastSeenBy := k)]
    {
      var p := players[j];
      players[j] := p.(seen := false, lastSeenBy := VACANT);
      for k := 0 to players.Length
        invariant players[..] == old(players[..])[j := p.(seen := false, lastSeenBy := VACANT)]
        invariant Search(start.players, p, 0) == Search(start.players, p, k)
      {
        var q := players[k];
        assert SameShip(q, start.players[k]);
        if !q.alive { continue; }
        if q.robot { continue; }
        if q.team == p.team { continue; }
        if q.x - p.x > Reach(p) || q.x - p.x < -Reach(p) { continue; }
        if q.y - p.y > Reach(p) || q.y - p.y < -Reach(p) { continue; }
        if DistSq(p, q) <= Reach(p) * Reach(p) {
          players[j] := p.(seen := true, lastSeenBy := k);
          break;
        }
      }
    }
  }

  /** The two differ in their sight flags only. */
  predicate SameShip(a: Player, b: Player) {
    a == b.(seen := a.seen, lastSeenBy := a.lastSeenBy)
  }
}

/** The remembered viewer makes no difference, as long as it stays an enemy. */
module SightSafety {
  import opened Sight

  lemma {:induction false} SquareBounds(d: int, e: int, m: int)
    requires m >= 0 && d * d + e * e <= m * m
    ensures -m <= d <= m
  {
    assert e * e >= 0;
    if d > m { Bigger(d, m); }
    if -d > m { Bigger(-d, m); }
  }

  lemma {:induction false} Bigger(d: int, m: int)
    requires d > m >= 0
    ensures d * d > m * m
  {
    assert d * d >= d * m >= m * m;
    assert d * d - m * m == (d - m) * (d + m);
  }

  /** The box test changes nothing. */
  lemma {:induction false} FoundIsSees(j: Player, k: Player)
    ensures Found(j, k) <==> Sees(j, k)
  {
    if Sees(j, k) {
      SquareBounds(k.x - j.x, k.y - j.y, Reach(j));
      SquareBounds(k.y - j.y, k.x - j.x, Reach(j));
    }
  }

  lemma {:induction false} SearchFindsViewer(w: World, j: nat)
    requires WellFormed(w) && j < |w.players|
    ensures Search(w.players, w.players[j], 0) != VACANT
       <==> exists k :: 0 <= k < |w.players| && Sees(w.players[j], w.players[k])
  {
    forall k | 0 <= k < |w.players| ensures Found(w.players[j], w.players[k]) <==> Sees(w.players[j], w.players[k]) {
      FoundIsSees(w.players[j], w.players[k]);
    }
  }

  // ---- The cache ----

  /** A player with a remembered viewer has its flag set. */
  predicate FlagOk(p: Player) {
    p.lastSeenBy != VACANT ==> p.seen
  }

  ghost predicate FlagsOk(w: World) {
    WellFormed(w) && forall j :: 0 <= j < |w.players| ==> FlagOk(w.players[j])
  }

  /** The remembered viewer is no enemy any more. */
  predicate Stale(w: World, j: nat)
    requires WellFormed(w) && j < |w.players|
  {
    w.players[j].lastSeenBy != VACANT && !Enemy(w.players[j], w.players[w.players[j].lastSeenBy])
  }

  ghost predicate NoneStale(w: World)
    requires WellFormed(w)
  {
    forall j :: 0 <= j < |w.players| ==> !Stale(w, j)
  }

  /** The exact difference: the update shows a ship that a full search would not exactly when the
      remembered viewer still hits, is no enemy any more, and no enemy sees the ship. */
  lemma {:induction false} UpdateDiffersExactly(w: World, j: nat)
    requires FlagsOk(w) && j < |w.players|
    ensures UpdateOne(w, j).seen == Visible(w, j)
       <==> !(!Exposed(w, j) && CacheHit(w, j) && Stale(w, j) && Search(w.players, w.players[j], 0) == VACANT)
  {
    assert FlagOk(w.players[j]);
    SearchFindsViewer(w, j);
    var p := w.players[j];
    if !Exposed(w, j) && CacheHit(w, j) && !Stale(w, j) {
      assert Sees(p, w.players[p.lastSeenBy]);
    }
  }

  /** A ship that should be seen is seen, whatever happened to the remembered viewer. */
  lemma {:induction false} UpdateNeverMisses(w: World, j: nat)
    requires FlagsOk(w) && j < |w.players| && Visible(w, j)
    ensures UpdateOne(w, j).seen
  {
    assert FlagOk(w.players[j]);
    SearchFindsViewer(w, j);
  }

  // ---- An update, field by field ----

  /** The distance squared is at most, or below, the square of the range: 14285 for a cloaked ship, else
      33333. */
  predicate InRange(j: Player, k: Player, atMost: bool) {
    var range := if j.cloak then 14285 else 33333;
    var d := (k.x - j.x) * (k.x - j.x) + (k.y - j.y) * (k.y - j.y);
    if atMost then d <= range * range else d < range * range
  }

  /** A live enemy that is no robot and in range. */
  predicate Spots(j: Player, k: Player) {
    k.alive && !k.robot && k.team != j.team && InRange(j, k, true)
  }

  ghost predicate FirstToSpot(players: seq<Player>, j: Player, k: int) {
    0 <= k < |players| && Spots(j, players[k]) && forall i :: 0 <= i < k ==> !Spots(j, players[i])
  }

  /** One player's flag and memory: a dead ship, or one in orbit of a planet of others, is seen; so is one
      whose remembered viewer is alive and in range; else the first enemy to spot it is remembered, and it
      is seen if there is one.  Nothing else changes. */
  ghost predicate SightTurn(w: World, p: Player, p': Player)
    requires p.planet < |w.owners| && -1 <= p.lastSeenBy < |w.players|
  {
    if !p.alive || (p.orbit && w.owners[p.planet] != p.team) then p' == p.(seen := true)
    else if p.lastSeenBy != -1 && w.players[p.lastSeenBy].alive && InRange(p, w.players[p.lastSeenBy], false) then p' == p
    else
      && p' == p.(seen := p'.seen, lastSeenBy := p'.lastSeenBy)
      && if exists k :: 0 <= k < |w.players| && Spots(p, w.players[k]) then p'.seen && FirstToSpot(w.players, p, p'.lastSeenBy)
         else !p'.seen && p'.lastSeenBy == -1
  }

  lemma {:induction false} SpotsIsFound(j: Player, k: Player)
    ensures Spots(j, k) <==> Found(j, k)
  {
    assert Reach(j) == if j.cloak then 14285 else 33333;
    FoundIsSees(j, k);
  }

  lemma {:induction false} SearchExactly(players: seq<Player>, j: Player, k: nat)
    requires k <= |players| && forall i :: 0 <= i < k ==> !Spots(j, players[i])
    ensures var r := Search(players, j, k);
            if exists i :: 0 <= i < |players| && Spots(j, players[i]) then FirstToSpot(players, j, r) else r == -1
    decreases |players| - k
  {
    if k < |players| {
      SpotsIsFound(j, players[k]);
      if !Spots(j, players[k]) { SearchExactly(players, j, k + 1); }
    }
  }

  /** Main result: what an update does for every player. */
  lemma {:induction false} UpdateExactly(w: World, j: nat)
    requires WellFormed(w) && j < |w.players|
    ensures SightTurn(w, w.players[j], Update(w).players[j])
  {
    var p := w.players[j];
    SearchExactly(w.players, p, 0);
    if p.lastSeenBy != VACANT { assert Reach(p) == if p.cloak then 14285 else 33333; }
  }

  // ---- Runs ----

  /** Sight updates; and everything else that changes ships and planets.  Others leave the two
      sight fields alone, except that a ship that enters has them cleared, and that the draft and
      the conquest parade set the flag. */
  datatype Event =
    | Look | Change(k: nat, ship: Player) | Enter(e: nat, entering: Player)
    | Take(p: nat, owner: nat) | Flag(f: nat)

  predicate Enabled(w: World, e: Event)
    requires WellFormed(w)
  {
    match e
    case Look => true
    case Change(k, ship) =>
      k < |w.players| && ship.planet < |w.owners|
      && ship.seen == w.players[k].seen && ship.lastSeenBy == w.players[k].lastSeenBy
    case Enter(k, ship) => k < |w.players| && ship.planet < |w.owners| && !ship.seen && ship.lastSeenBy == VACANT
    case Take(p, _) => p < |w.owners|
    case Flag(k) => k < |w.players|
  }

  function Apply(w: World, e: Event): (r: World)
    requires WellFormed(w) && Enabled(w, e)
    ensures WellFormed(r) && |r.players| == |w.players|
  {
    match e
    case Look => Update(w)
    case Change(k, ship) => w.(players := w.players[k := ship])
    case Enter(k, ship) => w.(players := w.players[k := ship])
    case Take(p, owner) => w.(owners := w.owners[p := owner])
    case Flag(k) => w.(players := w.players[k := w.players[k].(seen := true)])
  }

  ghost function After(w: World, events: seq<Event>): (r: World)
    requires WellFormed(w)
    ensures WellFormed(r) && |r.players| == |w.players|
  {
    if events == [] then w
    else
      var before := After(w, events[..|events| - 1]);
      if Enabled(before, events[|events| - 1]) then Apply(before, events[|events| - 1]) else before
  }

  /** Player k is remembered by somebody. */
  ghost predicate Remembered(w: World, k: nat)
    requires WellFormed(w)
  {
    exists j :: 0 <= j < |w.players| && w.players[j].lastSeenBy == k
  }

  /** The step changes neither team nor robot status of a player who is remembered, or who
      remembers somebody and goes on doing so. */
  ghost predicate Faithful(w: World, e: Event)
    requires WellFormed(w) && Enabled(w, e)
  {
    match e
    case Change(k, ship) => Remembered(w, k) || w.players[k].lastSeenBy != VACANT ==> SameSide(ship, w.players[k])
    case Enter(k, ship) => Remembered(w, k) ==> SameSide(ship, w.players[k])
    case _ => true
  }

  predicate SameSide(a: Player, b: Player) {
    a.team == b.team && a.robot == b.robot
  }

  ghost predicate AllFaithful(w: World, events: seq<Event>)
    requires WellFormed(w)
  {
    events == [] ||
    (var before := After(w, events[..|events| - 1]);
     AllFaithful(w, events[..|events| - 1])
     && (Enabled(before, events[|events| - 1]) ==> Faithful(before, events[|events| - 1])))
  }

  lemma {:induction false} ApplyKeepsFlags(w: World, e: Event)
    requires FlagsOk(w) && Enabled(w, e)
    ensures FlagsOk(Apply(w, e))
  {
    var w' := Apply(w, e);
    forall j | 0 <= j < |w'.players| ensures FlagOk(w'.players[j]) {
      assert FlagOk(w.players[j]);
      if e.Change? { assert FlagOk(w.players[e.k]); }
    }
  }

  /** A ship changes, and forgets whom it remembers unless both keep their sides. */
  lemma {:induction false} PutKeepsFresh(w: World, k: nat, ship: Player)
    requires WellFormed(w) && NoneStale(w) && k < |w.players| && ship.planet < |w.owners|
    requires Remembered(w, k) ==> SameSide(ship, w.players[k])
    requires ship.lastSeenBy == VACANT || (ship.lastSeenBy == w.players[k].lastSeenBy && SameSide(ship, w.players[k]))
    ensures NoneStale(w.(players := w.players[k := ship]))
  {
    var w' := w.(players := w.players[k := ship]);
    forall j | 0 <= j < |w'.players| ensures !Stale(w', j) {
      assert !Stale(w, j);
      if w.players[j].lastSeenBy == k { assert Remembered(w, k); }
    }
  }

  lemma {:induction false} ApplyKeepsFresh(w: World, e: Event)
    requires FlagsOk(w) && NoneStale(w) && Enabled(w, e) && Faithful(w, e)
    ensures NoneStale(Apply(w, e))
  {
    match e
    case Change(k, ship) => PutKeepsFresh(w, k, ship);
    case Enter(k, ship) => PutKeepsFresh(w, k, ship);
    case Flag(k) => PutKeepsFresh(w, k, w.players[k].(seen := true));
    case Look =>
      forall j | 0 <= j < |w.players| ensures !Stale(Update(w), j) { assert !Stale(w, j); }
    case Take(_, _) =>
      forall j | 0 <= j < |w.players| ensures !Stale(Apply(w, e), j) { assert !Stale(w, j); }
  }

  lemma {:induction false} RunKeepsFlags(w: World, events: seq<Event>)
    requires FlagsOk(w)
    ensures FlagsOk(After(w, events))
  {
    if events != [] {
      var n := |events| - 1;
      RunKeepsFlags(w, events[..n]);
      var before := After(w, events[..n]);
      if Enabled(before, events[n]) { ApplyKeepsFlags(before, events[n]); }
    }
  }

  lemma {:induction false} RunKeepsFresh(w: World, events: seq<Event>)
    requires FlagsOk(w) && NoneStale(w) && AllFaithful(w, events)
    ensures NoneStale(After(w, events))
  {
    if events != [] {
      var n := |events| - 1;
      RunKeepsFresh(w, events[..n]);
      RunKeepsFlags(w, events[..n]);
      var before := After(w, events[..n]);
      if Enabled(before, events[n]) { ApplyKeepsFresh(before, events[n]); }
    }
  }

  /** Main result: in every run in which players keep their team and robot status while they
      remember somebody or are remembered, a sight update sets each flag exactly as a full search would. */
  lemma {:induction false} SightIsExact(w: World, events: seq<Event>, j: nat)
    requires FlagsOk(w) && NoneStale(w) && AllFaithful(w, events) && j < |w.players|
    ensures Update(After(w, events)).players[j].seen == Visible(After(w, events), j)
  {
    RunKeepsFlags(w, events);
    RunKeepsFresh(w, events);
    var now := After(w, events);
    assert !Stale(now, j);
    UpdateDiffersExactly(now, j);
  }

  /** Main result: in every run whatever, nobody who should be seen is missed. */
  lemma {:induction false} NobodyIsMissed(w: World, events: seq<Event>, j: nat)
    requires FlagsOk(w) && j < |w.players| && Visible(After(w, events), j)
    ensures Update(After(w, events)).players[j].seen
  {
    RunKeepsFlags(w, events);
    UpdateNeverMisses(After(w, events), j);
  }

  lemma {:induction false} Next(w: World, events: seq<Event>, e: Event)
    requires WellFormed(w) && Enabled(After(w, events), e)
    ensures After(w, events + [e]) == Apply(After(w, events), e)
  {
    assert (events + [e])[..|events|] == events;
  }

  lemma {:induction false} FirstLook(a: Player, b: Player, owner: nat)
    requires a.alive && !a.orbit && a.planet == 0 && a.lastSeenBy == VACANT
    requires b.alive && !b.robot && b.planet == 0 && b.team != a.team && b.lastSeenBy == VACANT
    requires a.x == b.x && a.y == b.y
    ensures Update(World([a, b], [owner])).players[0] == a.(seen := true, lastSeenBy := 1)
    ensures SameShip(Update(World([a, b], [owner])).players[1], b)
  {
    assert DistSq(a, b) == 0;
    assert Found(a, b) && !Found(a, a);
    var w := World([a, b], [owner]);
    assert Search(w.players, a, 0) == Search(w.players, a, 1) == 1;
  }

  lemma {:induction false} LookInOrbit(w: World)
    requires WellFormed(w) && |w.players| == 2 && Exposed(w, 0)
    ensures Update(w).players[0] == w.players[0].(seen := true) && SameShip(Update(w).players[1], w.players[1])
  {
  }

  /** Five events, each of which makes sense after the ones before. */
  lemma {:induction false} FiveEvents(w: World, e: seq<Event>, ws: seq<World>)
    requires |e| == 5 && |ws| == 6 && ws[0] == w && WellFormed(w)
    requires forall k :: 0 <= k < 5 ==> Leads(ws[k], e[k], ws[k + 1])
    ensures After(w, e) == ws[5]
  {
    for k := 0 to 5
      invariant After(w, e[..k]) == ws[k]
    {
      assert Leads(ws[k], e[k], ws[k + 1]);
      Next(w, e[..k], e[k]);
      assert e[..k] + [e[k]] == e[..k + 1];
    }
    assert e[..5] == e;
  }

  ghost predicate Leads(w: World, e: Event, w': World) {
    WellFormed(w) && Enabled(w, e) && w' == Apply(w, e)
  }

  /** The run that goes wrong: ship 0 is seen by ship 1, goes into orbit around a planet of
      others, ship 1 comes back on the team of ship 0, ship 0 leaves orbit: it is still shown. */
  lemma {:induction false} StaleViewerShows(a: Player, b: Player, owner: nat)
    requires a.alive && !a.orbit && a.planet == 0 && !a.seen && a.lastSeenBy == VACANT
    requires b.alive && !b.robot && b.planet == 0 && b.team != a.team && !b.seen && b.lastSeenBy == VACANT
    requires a.x == b.x && a.y == b.y && owner != a.team
    ensures var w := World([a, b], [owner]);
            var shown := a.(seen := true, lastSeenBy := 1);
            var now := After(w, [Look, Change(0, shown.(orbit := true)), Enter(1, b.(team := a.team)), Look, Change(0, shown)]);
            Update(now).players[0].seen && !Visible(now, 0)
  {
    var w := World([a, b], [owner]);
    var shown := a.(seen := true, lastSeenBy := 1);
    var orbits, comesBack, leaves := Change(0, shown.(orbit := true)), Enter(1, b.(team := a.team)), Change(0, shown);
    FirstLook(a, b, owner);
    var w1 := Update(w);
    var w2 := Apply(w1, orbits);
    var w3 := Apply(w2, comesBack);
    LookInOrbit(w3);
    var w4 := Update(w3);
    var w5 := Apply(w4, leaves);
    FiveEvents(w, [Look, orbits, comesBack, Look, leaves], [w, w1, w2, w3, w4, w5]);
    StillShown(w5);
  }

  lemma {:induction false} StillShown(w: World)
    requires WellFormed(w) && |w.players| == 2 && w.players[0].team == w.players[1].team
    requires w.players[0].alive && !w.players[0].orbit && w.players[0].seen && w.players[0].lastSeenBy == 1
    requires w.players[1].alive && w.players[0].x == w.players[1].x && w.players[0].y == w.players[1].y
    ensures Update(w).players[0].seen && !Visible(w, 0)
  {
    assert DistSq(w.players[0], w.players[1]) == 0;
    assert !Enemy(w.players[0], w.players[1]) && !Enemy(w.players[0], w.players[0]);
  }
}
