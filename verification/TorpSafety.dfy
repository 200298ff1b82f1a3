/** The counters are exact in every run, and no torpedo outlives its fuse and its explosion. */
module TorpSafety {
  import opened Torps

  // ---- Counting live slots ----

  predicate Counts(t: Torp, p: nat, plasma: bool) {
    t.status != Free && t.owner == p && t.plasma == plasma
  }

  function One(b: bool): nat {
    if b then 1 else 0
  }

  /** How many slots hold a live torpedo of player p of this type. */
  function Live(torps: seq<Torp>, p: nat, plasma: bool): nat {
    if torps == [] then 0
    else Live(torps[..|torps| - 1], p, plasma) + One(Counts(torps[|torps| - 1], p, plasma))
  }

  lemma {:induction false} LiveChange(torps: seq<Torp>, k: nat, t: Torp, p: nat, plasma: bool)
    requires k < |torps|
    ensures Live(torps[k := t], p, plasma)
         == Live(torps, p, plasma) - One(Counts(torps[k], p, plasma)) + One(Counts(t, p, plasma))
  {
    var n := |torps| - 1;
    assert torps[k := t][..n] == if k < n then torps[..n][k := t] else torps[..n];
    if k < n { LiveChange(torps[..n], k, t, p, plasma); }
  }

  /** The slots a and b are live or free together, with the same owner and type. */
  predicate Alike(a: Torp, b: Torp) {
    (a.status == Free <==> b.status == Free) && a.owner == b.owner && a.plasma == b.plasma
  }

  ghost predicate AllAlike(a: seq<Torp>, b: seq<Torp>) {
    |a| == |b| && forall k :: 0 <= k < |a| ==> Alike(a[k], b[k])
  }

  lemma {:induction false} LiveAlike(a: seq<Torp>, b: seq<Torp>, p: nat, plasma: bool)
    requires AllAlike(a, b)
    ensures Live(a, p, plasma) == Live(b, p, plasma)
  {
    if a != [] {
      var n := |a| - 1;
      assert Alike(a[n], b[n]);
      forall k | 0 <= k < n ensures Alike(a[..n][k], b[..n][k]) { assert Alike(a[k], b[k]); }
      LiveAlike(a[..n], b[..n], p, plasma);
    }
  }

  // ---- The invariant ----

  /** A live torpedo sits in one of its owner's slots for its type. */
  predicate AtHome(t: Torp, k: nat, players: nat) {
    t.status != Free ==>
      if k < MAXTORP * players then !t.plasma && PhotonOf(t.owner, k) else t.plasma && k == MAXTORP * players + t.owner
  }

  ghost predicate AllAtHome(torps: seq<Torp>, players: nat) {
    forall k :: 0 <= k < |torps| ==> AtHome(torps[k], k, players)
  }

  ghost predicate Exact(w: World)
    requires WellFormed(w)
  {
    forall p: nat :: p < |w.ntorp| ==> w.ntorp[p] == Live(w.torps, p, false) && w.nplasma[p] == Live(w.torps, p, true)
  }

  ghost predicate Inv(w: World) {
    WellFormed(w) && AllAtHome(w.torps, |w.ntorp|) && Exact(w)
  }

  /** Live photons of p are found between its first and its last slot. */
  lemma {:induction false} LiveInRange(torps: seq<Torp>, p: nat, plasma: bool, from: nat, to: nat)
    requires from <= to && forall k :: 0 <= k < |torps| && Counts(torps[k], p, plasma) ==> from <= k < to
    ensures Live(torps, p, plasma) <= if |torps| <= from then 0 else if |torps| <= to then |torps| - from else to - from
  {
    if torps != [] {
      var n := |torps| - 1;
      forall k | 0 <= k < n && Counts(torps[..n][k], p, plasma) ensures from <= k < to { assert Counts(torps[k], p, plasma); }
      LiveInRange(torps[..n], p, plasma, from, to);
    }
  }

  lemma {:induction false} LiveFillsRange(torps: seq<Torp>, p: nat, plasma: bool, from: nat, to: nat)
    requires from <= to && forall k :: from <= k < to && k < |torps| ==> Counts(torps[k], p, plasma)
    ensures Live(torps, p, plasma) >= if |torps| <= from then 0 else if |torps| <= to then |torps| - from else to - from
  {
    if torps != [] {
      var n := |torps| - 1;
      forall k | from <= k < to && k < n ensures Counts(torps[..n][k], p, plasma) { assert Counts(torps[k], p, plasma); }
      LiveFillsRange(torps[..n], p, plasma, from, to);
    }
  }

  /** No player has more than eight photons and one plasma. */
  lemma {:induction false} LiveBounds(w: World, p: nat)
    requires WellFormed(w) && AllAtHome(w.torps, |w.ntorp|) && p < |w.ntorp|
    ensures Live(w.torps, p, false) <= MAXTORP && Live(w.torps, p, true) <= MAXPLASMA
  {
    forall k | 0 <= k < |w.torps| && Counts(w.torps[k], p, false) ensures MAXTORP * p <= k < MAXTORP * p + MAXTORP {
      assert AtHome(w.torps[k], k, |w.ntorp|);
    }
    LiveInRange(w.torps, p, false, MAXTORP * p, MAXTORP * p + MAXTORP);
    forall k | 0 <= k < |w.torps| && Counts(w.torps[k], p, true) ensures PlasmaSlot(w, p) <= k < PlasmaSlot(w, p) + 1 {
      assert AtHome(w.torps[k], k, |w.ntorp|);
    }
    LiveInRange(w.torps, p, true, PlasmaSlot(w, p), PlasmaSlot(w, p) + 1);
  }

  /** The unchecked slot search of ntorp() stays in the player's own slots exactly when fewer
      than eight of its photons are live, whatever the counter says. */
  lemma {:induction false} SearchStaysHome(w: World, p: nat)
    requires WellFormed(w) && AllAtHome(w.torps, |w.ntorp|) && p < |w.ntorp|
    ensures PhotonOf(p, FirstFree(w.torps, MAXTORP * p, MAXTORP * p + MAXTORP)) <==> Live(w.torps, p, false) < MAXTORP
  {
    var from := MAXTORP * p;
    var k := FirstFree(w.torps, from, from + MAXTORP);
    if k == from + MAXTORP {
      forall i | from <= i < from + MAXTORP ensures Counts(w.torps[i], p, false) { assert AtHome(w.torps[i], i, |w.ntorp|); }
      LiveFillsRange(w.torps, p, false, from, from + MAXTORP);
    } else {
      var filled := w.torps[k := Torp(Move, p, false, 0)];
      forall i | 0 <= i < |filled| && Counts(filled[i], p, false) ensures from <= i < from + MAXTORP {
        assert AtHome(w.torps[i], i, |w.ntorp|);
      }
      LiveInRange(filled, p, false, from, from + MAXTORP);
      LiveChange(w.torps, k, Torp(Move, p, false, 0), p, false);
    }
  }

  // ---- Steps ----

  /** One slot changes, and the counters with it. */
  lemma {:induction false} SlotKeeps(w: World, w': World, k: nat, t: Torp)
    requires Inv(w) && Shaped(w, w') && k < |w.torps| && w'.torps == w.torps[k := t] && AtHome(t, k, |w.ntorp|)
    requires forall p: nat :: p < |w.ntorp| ==>
      && w'.ntorp[p] == w.ntorp[p] - One(Counts(w.torps[k], p, false)) + One(Counts(t, p, false))
      && w'.nplasma[p] == w.nplasma[p] - One(Counts(w.torps[k], p, true)) + One(Counts(t, p, true))
    ensures Inv(w')
  {
    forall i | 0 <= i < |w'.torps| ensures AtHome(w'.torps[i], i, |w.ntorp|) { assert i != k ==> AtHome(w.torps[i], i, |w.ntorp|); }
    forall p: nat | p < |w.ntorp|
      ensures w'.ntorp[p] == Live(w'.torps, p, false) && w'.nplasma[p] == Live(w'.torps, p, true)
    {
      LiveChange(w.torps, k, t, p, false);
      LiveChange(w.torps, k, t, p, true);
    }
  }

  /** Torpedoes change, but none appears, goes or moves. */
  lemma {:induction false} AlikeKeeps(w: World, w': World)
    requires Inv(w) && Shaped(w, w') && AllAlike(w.torps, w'.torps) && w'.ntorp == w.ntorp && w'.nplasma == w.nplasma
    ensures Inv(w')
  {
    forall i | 0 <= i < |w'.torps| ensures AtHome(w'.torps[i], i, |w.ntorp|) {
      assert AtHome(w.torps[i], i, |w.ntorp|) && Alike(w.torps[i], w'.torps[i]);
    }
    forall p: nat | p < |w.ntorp|
      ensures w'.ntorp[p] == Live(w'.torps, p, false) && w'.nplasma[p] == Live(w'.torps, p, true)
    {
      LiveAlike(w.torps, w'.torps, p, false);
      LiveAlike(w.torps, w'.torps, p, true);
    }
  }

  lemma {:induction false} AdvanceKeeps(w: World, scale: nat, k: nat, wall: bool, near: bool)
      returns (r: World)
    requires Inv(w) && scale > 0 && k < |w.torps|
    ensures r == AdvanceSlot(w, scale, k, wall, near) && Inv(r)
  {
    r := AdvanceSlot(w, scale, k, wall, near);
    var t := Advance(w.torps[k], scale, wall, near);
    assert AtHome(w.torps[k], k, |w.ntorp|);
    SlotKeeps(w, r, k, t);
  }

  lemma {:induction false} FrameKeeps(w: World, scale: nat, n: nat, walls: seq<bool>, nears: seq<bool>)
      returns (r: World)
    requires Inv(w) && scale > 0 && n <= |w.torps| == |walls| == |nears|
    ensures r == Frame(w, scale, n, walls, nears) && Inv(r)
  {
    if n == 0 {
      r := w;
    } else {
      var before := FrameKeeps(w, scale, n - 1, walls, nears);
      r := AdvanceKeeps(before, scale, n - 1, walls[n - 1], nears[n - 1]);
    }
  }

  /** A photon fired within the limit goes to a free slot of the player. */
  lemma {:induction false} FirePhotonKeeps(w: World, p: nat, fuse: int)
    requires Inv(w) && p < |w.ntorp|
    ensures Inv(FirePhoton(w, p, fuse))
  {
    if w.ntorp[p] != MAXTORP {
      LiveBounds(w, p);
      SearchStaysHome(w, p);
      var k := FirstFree(w.torps, MAXTORP * p, MAXTORP * p + MAXTORP);
      SlotKeeps(w, FirePhoton(w, p, fuse), k, Torp(Move, p, false, fuse));
    }
  }

  lemma {:induction false} FirePlasmaKeeps(w: World, p: nat, att: bool, fuse: int)
    requires Inv(w) && p < |w.ntorp|
    ensures Inv(FirePlasma(w, p, att, fuse))
  {
    if FirePlasma(w, p, att, fuse) != w {
      SlotKeeps(w, FirePlasma(w, p, att, fuse), PlasmaSlot(w, p), Torp(Move, p, true, fuse));
    }
  }

  lemma {:induction false} ReenterKeeps(w: World, p: nat)
    requires Inv(w) && p < |w.ntorp|
    ensures Reenter(w, p) == w
  {
    assert w.ntorp[p] == Live(w.torps, p, false) && w.nplasma[p] == Live(w.torps, p, true);
  }

  lemma {:induction false} ApplyKeeps(w: World, scale: nat, e: Event)
    requires Inv(w) && scale > 0 && Enabled(w, e)
    ensures Inv(Apply(w, scale, e))
  {
    match e
    case Launch(p, fuse) => FirePhotonKeeps(w, p, fuse);
    case LaunchPlasma(p, att, fuse) => FirePlasmaKeeps(w, p, att, fuse);
    case Return(p) => ReenterKeeps(w, p);
    case Tick(walls, nears) => var _ := FrameKeeps(w, scale, |w.torps|, walls, nears);
    case _ => AlikeKeeps(w, Apply(w, scale, e));
  }

  lemma {:induction false} RunKeepsInv(w: World, scale: nat, events: seq<Event>)
    requires Inv(w) && scale > 0
    ensures Inv(After(w, scale, events))
  {
    if events != [] {
      var n := |events| - 1;
      RunKeepsInv(w, scale, events[..n]);
      var before := After(w, scale, events[..n]);
      if Enabled(before, events[n]) { ApplyKeeps(before, scale, events[n]); }
    }
  }

  lemma {:induction false} NoneLive(torps: seq<Torp>, p: nat, plasma: bool)
    requires forall k :: 0 <= k < |torps| ==> torps[k].status == Free
    ensures Live(torps, p, plasma) == 0
  {
    if torps != [] { NoneLive(torps[..|torps| - 1], p, plasma); }
  }

  /** With every slot free and every counter zero, the counters are exact. */
  lemma {:induction false} StartsExact(w: World)
    requires WellFormed(w) && forall k :: 0 <= k < |w.torps| ==> w.torps[k].status == Free
    requires forall p :: 0 <= p < |w.ntorp| ==> w.ntorp[p] == w.nplasma[p] == 0
    ensures Inv(w)
  {
    forall p: nat | p < |w.ntorp|
      ensures w.ntorp[p] == Live(w.torps, p, false) && w.nplasma[p] == Live(w.torps, p, true)
    {
      NoneLive(w.torps, p, false);
      NoneLive(w.torps, p, true);
    }
  }

  /** Main result: in every run each counter is the number of live torpedoes its player owns,
      and never exceeds MAXTORP or MAXPLASMA. */
  lemma {:induction false} CountersStayExact(w: World, scale: nat, events: seq<Event>, p: nat)
    requires Inv(w) && scale > 0 && p < |w.ntorp|
    ensures var w' := After(w, scale, events);
            && w'.ntorp[p] == Live(w'.torps, p, false) <= MAXTORP
            && w'.nplasma[p] == Live(w'.torps, p, true) <= MAXPLASMA
  {
    RunKeepsInv(w, scale, events);
    LiveBounds(After(w, scale, events), p);
  }

  // ---- Lifetime ----

  function AtLeastZero(n: int): nat {
    if n > 0 then n else 0
  }

  /** How many frames a slot can still be in use, without being fired again. */
  function Remaining(t: Torp, scale: nat): nat {
    match t.status
    case Free => 0
    case Move => AtLeastZero(t.fuse) + 10 * scale + 2
    case Det => 10 * scale + 2
    case Explode => AtLeastZero(t.fuse) + 1
    case Off => 1
  }

  /** Every frame uses up one of them. */
  lemma {:induction false} FrameAges(t: Torp, scale: nat, wall: bool, near: bool)
    requires scale > 0 && t.status != Free
    ensures Remaining(Advance(t, scale, wall, near), scale) < Remaining(t, scale)
  {
  }

  lemma {:induction false} FrameAt(w: World, scale: nat, n: nat, walls: seq<bool>, nears: seq<bool>, k: nat)
    requires WellFormed(w) && scale > 0 && n <= |w.torps| == |walls| == |nears| && k < |w.torps|
    ensures Frame(w, scale, n, walls, nears).torps[k]
         == if k < n then Advance(w.torps[k], scale, walls[k], nears[k]) else w.torps[k]
  {
    if n > 0 { FrameAt(w, scale, n - 1, walls, nears, k); }
  }

  function FramesIn(events: seq<Event>): nat {
    if events == [] then 0 else FramesIn(events[..|events| - 1]) + One(events[|events| - 1].Tick?)
  }

  /** A live slot is not fired into, and no step gives it more time. */
  lemma {:induction false} ApplyAges(w: World, scale: nat, e: Event, k: nat)
    requires Inv(w) && scale > 0 && Enabled(w, e) && k < |w.torps| && w.torps[k].status != Free
    requires e.Tick? ==> |e.walls| == |e.nears| == |w.torps|
    ensures Remaining(Apply(w, scale, e).torps[k], scale) + One(e.Tick?) <= Remaining(w.torps[k], scale)
  {
    match e
    case Launch(p, fuse) =>
      LiveBounds(w, p);
      SearchStaysHome(w, p);
    case Tick(walls, nears) =>
      FrameAt(w, scale, |w.torps|, walls, nears, k);
      FrameAges(w.torps[k], scale, walls[k], nears[k]);
    case _ =>
  }

  /** Slot k is free at some moment of the run. */
  ghost predicate FreeSometime(w: World, scale: nat, events: seq<Event>, k: nat)
    requires WellFormed(w) && scale > 0 && k < |w.torps|
  {
    exists i :: 0 <= i <= |events| && FreeAt(w, scale, events, k, i)
  }

  ghost predicate FreeAt(w: World, scale: nat, events: seq<Event>, k: nat, i: nat)
    requires WellFormed(w) && scale > 0 && k < |w.torps| && i <= |events|
  {
    After(w, scale, events[..i]).torps[k].status == Free
  }

  /** All frames in a run are real ones: each gives every torpedo its turn. */
  ghost predicate WholeFrames(w: World, events: seq<Event>) {
    forall i :: 0 <= i < |events| && events[i].Tick? ==> |events[i].walls| == |events[i].nears| == |w.torps|
  }

  lemma {:induction false} RunAges(w: World, scale: nat, events: seq<Event>, k: nat)
    requires Inv(w) && scale > 0 && k < |w.torps| && WholeFrames(w, events)
    ensures FreeSometime(w, scale, events, k)
         || Remaining(After(w, scale, events).torps[k], scale) + FramesIn(events) <= Remaining(w.torps[k], scale)
  {
    if events != [] {
      var n := |events| - 1;
      var init := events[..n];
      RunAges(w, scale, init, k);
      RunKeepsInv(w, scale, init);
      var before := After(w, scale, init);
      if before.torps[k].status == Free {
        assert FreeAt(w, scale, events, k, n);
      } else if FreeSometime(w, scale, init, k) {
        var i :| 0 <= i <= n && FreeAt(w, scale, init, k, i);
        assert events[..i] == init[..i];
        assert FreeAt(w, scale, events, k, i);
      } else if Enabled(before, events[n]) {
        ApplyAges(before, scale, events[n], k);
      }
    }
  }

  /** Main result: a torpedo launched with fuse F is free again within F + 10 * T_FUSE_SCALE + 2
      frames, whatever detonations, wall hits, near ships and fuse cuts happen. */
  lemma {:induction false} TorpIsFreeInTime(w: World, scale: nat, launch: Event, events: seq<Event>)
      returns (k: nat)
    requires Inv(w) && scale > 0 && (launch.Launch? || launch.LaunchPlasma?) && Enabled(w, launch)
    requires Apply(w, scale, launch) != w && launch.fuse >= 0
    requires WholeFrames(w, events) && FramesIn(events) >= launch.fuse + 10 * scale + 2
    ensures k < |w.torps| && w.torps[k].status == Free
    ensures Apply(w, scale, launch).torps[k] == Torp(Move, launch.p, launch.LaunchPlasma?, launch.fuse)
    ensures FreeSometime(Apply(w, scale, launch), scale, events, k)
  {
    var fired := Apply(w, scale, launch);
    ApplyKeeps(w, scale, launch);
    if launch.Launch? {
      LiveBounds(w, launch.p);
      SearchStaysHome(w, launch.p);
      k := FirstFree(w.torps, MAXTORP * launch.p, MAXTORP * launch.p + MAXTORP);
    } else {
      k := PlasmaSlot(w, launch.p);
    }
    RunAges(fired, scale, events, k);
    var last := After(fired, scale, events).torps[k];
    if last.status == Free {
      assert events[..|events|] == events;
      assert FreeAt(fired, scale, events, k, |events|);
    } else {
      assert Remaining(last, scale) > 0;
    }
  }

  // ---- The bound is reached ----

  function Repeat(e: Event, n: nat): (r: seq<Event>)
    ensures |r| == n && forall i :: 0 <= i < n ==> r[i] == e
  {
    seq(n, _ => e)
  }

  /** A frame in which no torpedo meets a wall or a ship. */
  function Quiet(slots: nat): Event {
    Tick(seq(slots, _ => false), seq(slots, _ => false))
  }

  lemma {:induction false} QuietFrame(w: World, scale: nat, events: seq<Event>, k: nat)
    requires WellFormed(w) && scale > 0 && k < |w.torps|
    requires var t := After(w, scale, events).torps[k]; (t.status == Move || t.status == Explode) && t.fuse > 0
    ensures var t := After(w, scale, events).torps[k];
            After(w, scale, events + [Quiet(|w.torps|)]).torps[k] == t.(fuse := t.fuse - 1)
    ensures FramesIn(events + [Quiet(|w.torps|)]) == FramesIn(events) + 1
  {
    var quiet := Quiet(|w.torps|);
    assert (events + [quiet])[..|events|] == events;
    FrameAt(After(w, scale, events), scale, |w.torps|, quiet.walls, quiet.nears, k);
  }

  /** After some events, slot k holds t and so many frames have passed. */
  ghost predicate HoldsAfter(w: World, scale: nat, events: seq<Event>, k: nat, t: Torp, frames: nat)
    requires WellFormed(w) && scale > 0 && k < |w.torps|
  {
    After(w, scale, events).torps[k] == t && FramesIn(events) == frames
  }

  ghost predicate AllQuiet(events: seq<Event>, slots: nat) {
    forall i :: 0 <= i < |events| ==> events[i] == Quiet(slots)
  }

  lemma {:induction false} QuietFrames(w: World, scale: nat, events: seq<Event>, more: seq<Event>, k: nat, t: Torp, frames: nat)
    requires WellFormed(w) && scale > 0 && k < |w.torps| && HoldsAfter(w, scale, events, k, t, frames)
    requires (t.status == Move || t.status == Explode) && t.fuse >= |more| && AllQuiet(more, |w.torps|)
    ensures HoldsAfter(w, scale, events + more, k, t.(fuse := t.fuse - |more|), frames + |more|)
    decreases |more|
  {
    if more == [] {
      assert events + more == events;
    } else {
      var once := events + [more[0]];
      QuietFrame(w, scale, events, k);
      assert more[0] == Quiet(|w.torps|);
      QuietFrames(w, scale, once, more[1..], k, t.(fuse := t.fuse - 1), frames + 1);
      assert once + more[1..] == events + more;
    }
  }

  /** The run that uses every frame: the fuse burns down, someone detonates the torpedo, it explodes. */
  function LongestLife(w: World, scale: nat, fuse: nat): seq<Event> {
    var quiet := Quiet(|w.torps|);
    Repeat(quiet, fuse) + [Detonate(seq(|w.torps|, _ => true)), quiet] + Repeat(quiet, 10 * scale)
  }

  lemma {:induction false} DetonateNext(w: World, scale: nat, events: seq<Event>, k: nat)
    requires Inv(w) && scale > 0 && k < MAXTORP * |w.ntorp|
    requires After(w, scale, events).torps[k].status == Move
    ensures var more := events + [Detonate(seq(|w.torps|, _ => true)), Quiet(|w.torps|)];
            && After(w, scale, more).torps[k] == After(w, scale, events).torps[k].(status := Explode, fuse := 10 * scale)
            && FramesIn(more) == FramesIn(events) + 1
  {
    var quiet := Quiet(|w.torps|);
    var det := Detonate(seq(|w.torps|, _ => true));
    var once := events + [det];
    var more := events + [det, quiet];
    assert once[..|events|] == events && more[..|events| + 1] == once;
    FrameAt(After(w, scale, once), scale, |w.torps|, quiet.walls, quiet.nears, k);
  }

  lemma {:induction false} NothingLaunched(w: World, scale: nat, fuse: nat)
    ensures var events := LongestLife(w, scale, fuse);
            forall i :: 0 <= i < |events| ==> !events[i].Launch? && !events[i].LaunchPlasma?
  {
  }

  /** One frame fewer is not enough: a photon can still be exploding after F + 10 * T_FUSE_SCALE + 1
      frames without any launch. */
  lemma {:induction false} BoundIsReached(w: World, scale: nat, k: nat, fuse: nat)
    requires Inv(w) && scale > 0 && k < MAXTORP * |w.ntorp| && w.torps[k].status == Move && w.torps[k].fuse == fuse
    ensures var events := LongestLife(w, scale, fuse);
            && FramesIn(events) == fuse + 10 * scale + 1
            && (forall i :: 0 <= i < |events| ==> !events[i].Launch? && !events[i].LaunchPlasma?)
            && After(w, scale, events).torps[k].status == Explode
  {
    NothingLaunched(w, scale, fuse);
    var quiet := Quiet(|w.torps|);
    var t := w.torps[k];
    var burnt := Repeat(quiet, fuse);
    QuietFrames(w, scale, [], burnt, k, t, 0);
    assert [] + burnt == burnt;
    DetonateNext(w, scale, burnt, k);
    QuietFrames(w, scale, burnt + [Detonate(seq(|w.torps|, _ => true)), quiet], Repeat(quiet, 10 * scale), k,
                t.(status := Explode, fuse := 10 * scale), fuse + 1);
  }
}
