/** What one frame and each request do to a torpedo, slot by slot. */
module TorpEffects {
  import opened Torps

  // ---- A frame ----

  /** A moving torpedo meets the wall, or has a ship near in a frame in which it looks around. */
  predicate Hits(t: Torp, scale: nat, wall: bool, near: bool)
    requires scale > 0
  {
    wall || (near && (t.fuse - 1) % scale == 0)
  }

  /** A torpedo before and after one frame. */
  ghost predicate Framed(t: Torp, t': Torp, scale: nat, wall: bool, near: bool)
    requires scale > 0
  {
    && t'.owner == t.owner && t'.plasma == t.plasma
    && match t.status
       case Free => t' == t
       case Move =>
         if t.fuse <= 0 then t'.status == Free
         else if Hits(t, scale, wall, near) then t'.status == Explode && t'.fuse == 10 * scale
         else t'.status == Move && t'.fuse == t.fuse - 1
       case Det => t'.status == Explode && t'.fuse == 10 * scale
       case Explode => if t.fuse > 0 then t'.status == Explode && t'.fuse == t.fuse - 1 else t'.status == Free
       case Off => t'.status == Free
  }

  lemma {:induction false} AdvanceExactly(t: Torp, scale: nat, wall: bool, near: bool)
    requires scale > 0
    ensures Framed(t, Advance(t, scale, wall, near), scale, wall, near)
  {
  }

  /** One slot's turn. */
  ghost predicate Turned(w: World, w': World, k: nat, scale: nat, wall: bool, near: bool)
    requires scale > 0 && k < |w.torps| && OwnersFit(w.torps, |w.ntorp|) && |w.ntorp| == |w.nplasma|
  {
    && |w'.torps| == |w.torps| && Framed(w.torps[k], w'.torps[k], scale, wall, near)
    && w'.torps == w.torps[k := w'.torps[k]]
    && var t, freed := w.torps[k], w.torps[k].status != Free && w'.torps[k].status == Free;
       && w'.ntorp == (if freed && !t.plasma then w.ntorp[t.owner := w.ntorp[t.owner] - 1] else w.ntorp)
       && w'.nplasma == if freed && t.plasma then w.nplasma[t.owner := w.nplasma[t.owner] - 1] else w.nplasma
  }

  lemma {:induction false} SlotExactly(w: World, scale: nat, k: nat, wall: bool, near: bool)
    requires WellFormed(w) && scale > 0 && k < |w.torps|
    ensures Turned(w, AdvanceSlot(w, scale, k, wall, near), k, scale, wall, near)
  {
    AdvanceExactly(w.torps[k], scale, wall, near);
  }

  lemma {:induction false} PartExactly(w: World, scale: nat, n: nat, walls: seq<bool>, nears: seq<bool>, k: nat)
    requires WellFormed(w) && scale > 0 && n <= |w.torps| == |walls| == |nears| && k < |w.torps|
    ensures var t, t' := w.torps[k], Frame(w, scale, n, walls, nears).torps[k];
            if k < n then Framed(t, t', scale, walls[k], nears[k]) else t' == t
  {
    if n > 0 {
      PartExactly(w, scale, n - 1, walls, nears, k);
      SlotExactly(Frame(w, scale, n - 1, walls, nears), scale, n - 1, walls[n - 1], nears[n - 1]);
    }
  }

  /** Main result: what a frame makes of every torpedo.  One in flight explodes exactly when it meets
      the wall or finds a ship near, and otherwise flies on with one frame less. */
  lemma {:induction false} FrameExactly(w: World, scale: nat, walls: seq<bool>, nears: seq<bool>, k: nat)
    requires WellFormed(w) && scale > 0 && |w.torps| == |walls| == |nears| && k < |w.torps|
    ensures Framed(w.torps[k], Apply(w, scale, Tick(walls, nears)).torps[k], scale, walls[k], nears[k])
  {
    PartExactly(w, scale, |w.torps|, walls, nears, k);
  }

  /** A frame lowers a counter by the torpedoes of that kind and player that it frees. */
  ghost function Freed(before: seq<Torp>, after: seq<Torp>, n: nat, p: nat, plasma: bool): set<int>
    requires n <= |before| == |after|
  {
    set k | 0 <= k < n && before[k].status != Free && after[k].status == Free
            && before[k].owner == p && before[k].plasma == plasma
  }

  lemma {:induction false} FreedNext(before: seq<Torp>, after: seq<Torp>, n: nat, p: nat, plasma: bool)
    requires n < |before| == |after|
    ensures |Freed(before, after, n + 1, p, plasma)| == |Freed(before, after, n, p, plasma)|
              + if before[n].status != Free && after[n].status == Free && before[n].owner == p && before[n].plasma == plasma
                then 1 else 0
  {
    var less := Freed(before, after, n, p, plasma);
    assert n !in less;
    assert Freed(before, after, n + 1, p, plasma)
           == if before[n].status != Free && after[n].status == Free && before[n].owner == p && before[n].plasma == plasma
              then less + {n} else less;
  }

  lemma {:induction false} FreedStays(torps: seq<Torp>, t1: seq<Torp>, t2: seq<Torp>, n: nat, p: nat, plasma: bool)
    requires n < |torps| == |t1| == |t2| && forall k :: 0 <= k < n ==> t2[k] == t1[k]
    ensures |Freed(torps, t2, n + 1, p, plasma)| == |Freed(torps, t1, n, p, plasma)|
              + if torps[n].status != Free && t2[n].status == Free && torps[n].owner == p && torps[n].plasma == plasma then 1 else 0
  {
    FreedNext(torps, t2, n, p, plasma);
    assert Freed(torps, t2, n, p, plasma) == Freed(torps, t1, n, p, plasma);
  }

  /** One more slot, on the counters of player p and on the torpedoes freed. */
  lemma {:induction false} CountsNext(torps: seq<Torp>, w1: World, w2: World, n: nat, p: nat, scale: nat, wall: bool, near: bool)
    requires scale > 0 && n < |torps| == |w1.torps| && w1.torps[n] == torps[n]
    requires OwnersFit(w1.torps, |w1.ntorp|) && p < |w1.ntorp| == |w1.nplasma|
    requires Turned(w1, w2, n, scale, wall, near)
    ensures |w2.torps| == |torps| && |w2.ntorp| == |w2.nplasma| == |w1.ntorp|
    ensures w2.ntorp[p] - w1.ntorp[p] == |Freed(torps, w1.torps, n, p, false)| - |Freed(torps, w2.torps, n + 1, p, false)|
    ensures w2.nplasma[p] - w1.nplasma[p] == |Freed(torps, w1.torps, n, p, true)| - |Freed(torps, w2.torps, n + 1, p, true)|
  {
    FreedStays(torps, w1.torps, w2.torps, n, p, false);
    FreedStays(torps, w1.torps, w2.torps, n, p, true);
  }

  lemma {:induction false} PartCounts(w: World, scale: nat, n: nat, walls: seq<bool>, nears: seq<bool>, p: nat)
    requires WellFormed(w) && scale > 0 && n <= |w.torps| == |walls| == |nears| && p < |w.ntorp|
    ensures var w' := Frame(w, scale, n, walls, nears);
            && w'.ntorp[p] == w.ntorp[p] - |Freed(w.torps, w'.torps, n, p, false)|
            && w'.nplasma[p] == w.nplasma[p] - |Freed(w.torps, w'.torps, n, p, true)|
  {
    if n > 0 {
      var w1, w2 := Frame(w, scale, n - 1, walls, nears), Frame(w, scale, n, walls, nears);
      PartCounts(w, scale, n - 1, walls, nears, p);
      PartExactly(w, scale, n - 1, walls, nears, n - 1);
      SlotExactly(w1, scale, n - 1, walls[n - 1], nears[n - 1]);
      CountsNext(w.torps, w1, w2, n - 1, p, scale, walls[n - 1], nears[n - 1]);
    } else {
      assert Freed(w.torps, w.torps, 0, p, false) == {} && Freed(w.torps, w.torps, 0, p, true) == {};
    }
  }

  lemma {:induction false} FrameCounts(w: World, scale: nat, walls: seq<bool>, nears: seq<bool>, p: nat)
    requires WellFormed(w) && scale > 0 && |w.torps| == |walls| == |nears| && p < |w.ntorp|
    ensures var w' := Apply(w, scale, Tick(walls, nears));
            && w'.ntorp[p] == w.ntorp[p] - |Freed(w.torps, w'.torps, |w.torps|, p, false)|
            && w'.nplasma[p] == w.nplasma[p] - |Freed(w.torps, w'.torps, |w.torps|, p, true)|
  {
    PartCounts(w, scale, |w.torps|, walls, nears, p);
  }

  // ---- Requests ----

  /** Only these slots change; the counters do not. */
  ghost predicate ChangesOnly(w: World, w': World, slots: set<int>) {
    && |w'.torps| == |w.torps| && w'.ntorp == w.ntorp && w'.nplasma == w.nplasma
    && forall k :: 0 <= k < |w.torps| && k !in slots ==> w'.torps[k] == w.torps[k]
  }

  /** The slots of moving torpedoes among those named. */
  ghost function Moving(w: World, named: set<int>): set<int> {
    set k | k in named && 0 <= k < |w.torps| && w.torps[k].status == Move
  }

  /** Exactly the moving torpedoes among those named get this status. */
  ghost predicate Become(w: World, w': World, named: set<int>, status: Status) {
    && ChangesOnly(w, w', Moving(w, named))
    && forall k :: k in Moving(w, named) ==> w'.torps[k] == w.torps[k].(status := status)
  }

  /** A request to detonate others reaches photons only, and turns the moving ones into detonating ones. */
  lemma {:induction false} DetonateExactly(w: World, scale: nat, reach: seq<bool>)
    requires WellFormed(w) && scale > 0 && |reach| == |w.torps|
    ensures Become(w, Apply(w, scale, Detonate(reach)), (set k | 0 <= k < 8 * |w.ntorp| && reach[k]), Det)
  {
  }

  predicate InRange(k: int, p: nat) {
    8 * p <= k < 8 * p + 8
  }

  /** The eight slots of a player's photons. */
  ghost function Photons(p: nat): set<int> {
    set k | 0 <= k < 8 * p + 8 && InRange(k, p)
  }

  /** A request about the player's own torpedo n turns it off if it moves, or, for a client of short
      packets, all of the player's photons; a request about somebody else's changes nothing. */
  lemma {:induction false} MineExactly(w: World, scale: nat, p: nat, n: int, all: bool)
    requires WellFormed(w) && scale > 0 && p < |w.ntorp|
    ensures var mine := 0 <= n < 8 * |w.ntorp| && w.torps[n].owner == p;
            Become(w, Apply(w, scale, Mine(p, n, all)),
                   if !mine then {} else if all then Photons(p) else {n}, Off)
  {
  }

  lemma {:induction false} PhaserExactly(w: World, scale: nat, k: nat)
    requires WellFormed(w) && scale > 0 && k < |w.torps|
    ensures Become(w, Apply(w, scale, Phaser(k)), {k as int}, Det)
  {
  }

  /** The moving torpedoes of player p whose fuse is longer than `limit`. */
  ghost function Long(w: World, p: nat, limit: nat): set<int> {
    set k | 0 <= k < |w.torps| && (8 * p <= k < 8 * p + 8 || k == 8 * |w.ntorp| + p)
            && w.torps[k].status == Move && w.torps[k].fuse > limit
  }

  lemma {:induction false} TrimExactly(w: World, scale: nat, p: nat, limit: nat)
    requires WellFormed(w) && scale > 0 && p < |w.ntorp|
    ensures var w' := Apply(w, scale, Trim(p, limit));
            && ChangesOnly(w, w', Long(w, p, limit))
            && forall k :: k in Long(w, p, limit) ==> w'.torps[k] == w.torps[k].(fuse := limit)
  {
  }

  lemma {:induction false} ReturnExactly(w: World, scale: nat, p: nat)
    requires WellFormed(w) && scale > 0 && p < |w.ntorp|
    ensures var w' := Apply(w, scale, Return(p));
            && w'.torps == w.torps
            && (forall q :: 0 <= q < |w.ntorp| && q != p ==> w'.ntorp[q] == w.ntorp[q] && w'.nplasma[q] == w.nplasma[q])
            && if w.ntorp[p] > 0 || w.nplasma[p] > 0 then w'.ntorp[p] == w.ntorp[p] && w'.nplasma[p] == w.nplasma[p]
               else w'.ntorp[p] == 0 && w'.nplasma[p] == 0
  {
  }

  // ---- Firing ----

  /** A new torpedo in slot k, and one more on its owner's counter. */
  ghost predicate Launched(w: World, w': World, k: nat, p: nat, plasma: bool, fuse: int) {
    && k < |w.torps| == |w'.torps| && p < |w.ntorp| == |w'.ntorp| == |w'.nplasma| == |w.nplasma|
    && w'.torps[k] == Torp(Move, p, plasma, fuse)
    && (forall i :: 0 <= i < |w.torps| && i != k ==> w'.torps[i] == w.torps[i])
    && w'.ntorp == (if plasma then w.ntorp else w.ntorp[p := w.ntorp[p] + 1])
    && w'.nplasma == (if plasma then w.nplasma[p := w.nplasma[p] + 1] else w.nplasma)
  }

  /** A photon is refused exactly with eight on the counter; otherwise it takes the player's first free
      slot, or, unchecked, the slot behind them if there is none. */
  lemma {:induction false} LaunchExactly(w: World, scale: nat, p: nat, fuse: int)
    requires WellFormed(w) && scale > 0 && p < |w.ntorp|
    ensures var w' := Apply(w, scale, Launch(p, fuse));
            && (w.ntorp[p] == 8 ==> w' == w)
            && forall k :: 8 * p <= k < 8 * p + 8 && w.torps[k].status == Free
                           && (forall i :: 8 * p <= i < k ==> w.torps[i].status != Free) && w.ntorp[p] != 8 ==>
                 Launched(w, w', k, p, false, fuse)
    ensures w.ntorp[p] != 8 && (forall i :: 8 * p <= i < 8 * p + 8 ==> w.torps[i].status != Free) ==>
              Launched(w, Apply(w, scale, Launch(p, fuse)), 8 * p + 8, p, false, fuse)
  {
  }

  /** A plasma is fired exactly when the slot is free and the counter is not at its limit, or does not
      matter to an ATT ship. */
  lemma {:induction false} LaunchPlasmaExactly(w: World, scale: nat, p: nat, att: bool, fuse: int)
    requires WellFormed(w) && scale > 0 && p < |w.ntorp|
    ensures var w', k := Apply(w, scale, LaunchPlasma(p, att, fuse)), 8 * |w.ntorp| + p;
            if w.torps[k].status == Free && (att || w.nplasma[p] != 1) then Launched(w, w', k, p, true, fuse) else w' == w
  {
  }
}
