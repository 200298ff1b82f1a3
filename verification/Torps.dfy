/** The life of a torpedo and the counters of live ones (ntserv/daemon.c udtorps, ntserv/torp.c,
    ntserv/plasma.c, ntserv/detonate.c, and the other places that change a torpedo's status),
    as a state machine over the one array that holds photons first and plasmas after them. */
module Torps {

  const MAXTORP: nat := 8
  const MAXPLASMA: nat := 1

  datatype Status = Free | Move | Det | Explode | Off

  datatype Torp = Torp(status: Status, owner: nat, plasma: bool, fuse: int)

  /** Player p's photons are slots 8p to 8p+7; its plasma is slot 8 * (number of players) + p. */
  datatype World = World(torps: seq<Torp>, ntorp: seq<int>, nplasma: seq<int>)

  predicate WellFormed(w: World) {
    && |w.nplasma| == |w.ntorp| > 0 && |w.torps| == (MAXTORP + MAXPLASMA) * |w.ntorp|
    && OwnersFit(w.torps, |w.ntorp|)
  }

  predicate OwnersFit(torps: seq<Torp>, players: nat) {
    forall k :: 0 <= k < |torps| ==> torps[k].owner < players
  }

  ghost predicate Shaped(w: World, w': World) {
    WellFormed(w') && |w'.ntorp| == |w.ntorp|
  }

  // ---- One frame (udtorps) ----

  /** The frame of one torpedo: `scale` is T_FUSE_SCALE, `wall` says it meets the wall, `near`
      that a ship is near when it has moved. */
  function Advance(t: Torp, scale: nat, wall: bool, near: bool): Torp
    requires scale > 0
  {
    match t.status
    case Free => t
    case Move =>
      if t.fuse <= 0 then t.(status := Free, fuse := t.fuse - 1)
      else
        var moved := if wall then t.(status := Explode, fuse := 10 * scale) else t.(fuse := t.fuse - 1);
        if moved.fuse % scale == 0 && near then t.(status := Explode, fuse := 10 * scale) else moved
    case Det => t.(status := Explode, fuse := 10 * scale)
    case Explode => t.(status := if t.fuse > 0 then Explode else Free, fuse := t.fuse - 1)
    case Off => t.(status := Free)
  }

  /** A slot's turn in the frame; freeing it lowers its owner's counter. */
  function AdvanceSlot(w: World, scale: nat, k: nat, wall: bool, near: bool): (r: World)
    requires WellFormed(w) && scale > 0 && k < |w.torps|
    ensures Shaped(w, r)
  {
    var t := Advance(w.torps[k], scale, wall, near);
    var moved := w.(torps := w.torps[k := t]);
    if w.torps[k].status == Free || t.status != Free then moved
    else if t.plasma then moved.(nplasma := w.nplasma[t.owner := w.nplasma[t.owner] - 1])
    else moved.(ntorp := w.ntorp[t.owner := w.ntorp[t.owner] - 1])
  }

  /** The first `n` slots of a frame. */
  function Frame(w: World, scale: nat, n: nat, walls: seq<bool>, nears: seq<bool>): (r: World)
    requires WellFormed(w) && scale > 0 && n <= |w.torps| == |walls| == |nears|
    ensures Shaped(w, r)
  {
    if n == 0 then w else AdvanceSlot(Frame(w, scale, n - 1, walls, nears), scale, n - 1, walls[n - 1], nears[n - 1])
  }

  // ---- Firing ----

  /** The slot search: the first free slot from `k`, or `end` if there is none. */
  function FirstFree(torps: seq<Torp>, k: nat, end: nat): (r: nat)
    requires k <= end <= |torps|
    ensures k <= r <= end && (r < end ==> torps[r].status == Free)
    ensures forall i :: k <= i < r ==> torps[i].status != Free
    decreases end - k
  {
    if k == end || torps[k].status == Free then k else FirstFree(torps, k + 1, end)
  }

  function PlasmaSlot(w: World, p: nat): nat {
    MAXTORP * |w.ntorp| + p
  }

  /** ntorp(): the search is not checked, so with all eight slots in use it would fall through
      to the slot after them. */
  function FirePhoton(w: World, p: nat, fuse: int): (r: World)
    requires WellFormed(w) && p < |w.ntorp|
    ensures Shaped(w, r)
  {
    if w.ntorp[p] == MAXTORP then w
    else
      var k := FirstFree(w.torps, MAXTORP * p, MAXTORP * p + MAXTORP);
      w.(torps := w.torps[k := Torp(Move, p, false, fuse)], ntorp := w.ntorp[p := w.ntorp[p] + 1])
  }

  /** nplasmatorp(): an ATT ship (`att`) is not stopped by the counter, only by the search. */
  function FirePlasma(w: World, p: nat, att: bool, fuse: int): (r: World)
    requires WellFormed(w) && p < |w.ntorp|
    ensures Shaped(w, r)
  {
    if w.nplasma[p] == MAXPLASMA && !att then w
    else
      var k := FirstFree(w.torps, PlasmaSlot(w, p), PlasmaSlot(w, p) + MAXPLASMA);
      if k == PlasmaSlot(w, p) + MAXPLASMA then w
      else w.(torps := w.torps[k := Torp(Move, p, true, fuse)], nplasma := w.nplasma[p := w.nplasma[p] + 1])
  }

  // ---- Changes between frames ----

  function Detonated(t: Torp): Torp {
    if t.status == Move then t.(status := Det) else t
  }

  function TurnedOff(t: Torp): Torp {
    if t.status == Move then t.(status := Off) else t
  }

  function Trimmed(t: Torp, limit: nat): Torp {
    if t.status == Move && t.fuse > limit then t.(fuse := limit) else t
  }

  predicate PhotonOf(p: nat, k: nat) {
    MAXTORP * p <= k < MAXTORP * p + MAXTORP
  }

  /** detothers(): the photons in `reach` detonate. */
  function DetOthers(w: World, reach: seq<bool>): (r: World)
    requires WellFormed(w) && |reach| == |w.torps|
    ensures Shaped(w, r)
  {
    w.(torps := seq(|w.torps|, k requires 0 <= k < |w.torps| =>
      if k < MAXTORP * |w.ntorp| && reach[k] then Detonated(w.torps[k]) else w.torps[k]))
  }

  /** A player's request about its own torpedo n; clients of short packets mean all of them. */
  function DetMine(w: World, p: nat, n: int, all: bool): (r: World)
    requires WellFormed(w) && p < |w.ntorp|
    ensures Shaped(w, r)
  {
    if n < 0 || n >= MAXTORP * |w.ntorp| || w.torps[n].owner != p then w
    else if !all then w.(torps := w.torps[n := TurnedOff(w.torps[n])])
    else w.(torps := seq(|w.torps|, k requires 0 <= k < |w.torps| =>
              if PhotonOf(p, k) then TurnedOff(w.torps[k]) else w.torps[k]))
  }

  /** A phaser hits a plasma torpedo. */
  function PhaserPlasma(w: World, k: nat): (r: World)
    requires WellFormed(w) && k < |w.torps|
    ensures Shaped(w, r)
  {
    w.(torps := w.torps[k := Detonated(w.torps[k])])
  }

  /** The fuses of an exploding player's torpedoes are cut. */
  function TrimFuses(w: World, p: nat, limit: nat): (r: World)
    requires WellFormed(w) && p < |w.ntorp|
    ensures Shaped(w, r)
  {
    w.(torps := seq(|w.torps|, k requires 0 <= k < |w.torps| =>
      if PhotonOf(p, k) || k == PlasmaSlot(w, p) then Trimmed(w.torps[k], limit) else w.torps[k]))
  }

  /** A dead player comes back only when its counters say nothing flies; they are then reset. */
  function Reenter(w: World, p: nat): (r: World)
    requires WellFormed(w) && p < |w.ntorp|
    ensures Shaped(w, r)
  {
    if w.ntorp[p] <= 0 && w.nplasma[p] <= 0
    then w.(ntorp := w.ntorp[p := 0], nplasma := w.nplasma[p := 0]) else w
  }

  // ---- Runs ----

  datatype Event =
    | Launch(p: nat, fuse: int)
    | LaunchPlasma(p: nat, att: bool, fuse: int)
    | Detonate(reach: seq<bool>)
    | Mine(p: nat, n: int, all: bool)
    | Phaser(k: nat)
    | Trim(p: nat, limit: nat)
    | Return(p: nat)
    | Tick(walls: seq<bool>, nears: seq<bool>)

  predicate Enabled(w: World, e: Event) {
    match e
    case Launch(p, _) => p < |w.ntorp|
    case LaunchPlasma(p, _, _) => p < |w.ntorp|
    case Detonate(reach) => |reach| == |w.torps|
    case Mine(p, _, _) => p < |w.ntorp|
    case Phaser(k) => k < |w.torps|
    case Trim(p, _) => p < |w.ntorp|
    case Return(p) => p < |w.ntorp|
    case Tick(walls, nears) => |walls| == |nears| == |w.torps|
  }

  function Apply(w: World, scale: nat, e: Event): (r: World)
    requires WellFormed(w) && scale > 0 && Enabled(w, e)
    ensures Shaped(w, r)
  {
    match e
    case Launch(p, fuse) => FirePhoton(w, p, fuse)
    case LaunchPlasma(p, att, fuse) => FirePlasma(w, p, att, fuse)
    case Detonate(reach) => DetOthers(w, reach)
    case Mine(p, n, all) => DetMine(w, p, n, all)
    case Phaser(k) => PhaserPlasma(w, k)
    case Trim(p, limit) => TrimFuses(w, p, limit)
    case Return(p) => Reenter(w, p)
    case Tick(walls, nears) => Frame(w, scale, |w.torps|, walls, nears)
  }

  ghost function After(w: World, scale: nat, events: seq<Event>): (r: World)
    requires WellFormed(w) && scale > 0
    ensures Shaped(w, r)
  {
    if events == [] then w
    else
      var before := After(w, scale, events[..|events| - 1]);
      var e := events[|events| - 1];
      if Enabled(before, e) then Apply(before, scale, e) else before
  }
}
