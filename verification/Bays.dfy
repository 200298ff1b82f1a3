/** The docking bays of starbases (ntserv/bay.c, and dock() in ntserv/orbit.c): a bay names the
    ship in it, and the ship names its base and bay. */
module Bays {

  const NUMBAYS: nat := 4
  const VACANT: int := -1

  /** `docked` is PFDOCK, `with` and `bay` are p_dock_with and p_dock_bay, `bays` is p_bays. */
  datatype Ship = Ship(docked: bool, with: nat, bay: nat, bays: seq<int>)

  predicate WellFormed(ships: seq<Ship>) {
    forall s :: 0 <= s < |ships| ==> Fits(ships[s], |ships|)
  }

  predicate Fits(s: Ship, count: nat) {
    s.with < count && s.bay < NUMBAYS && |s.bays| == NUMBAYS
    && forall i :: 0 <= i < NUMBAYS ==> VACANT <= s.bays[i] < count
  }

  /** Bay i of base b names a ship that says it is docked there. */
  predicate TrulyOccupied(ships: seq<Ship>, b: nat, i: nat)
    requires WellFormed(ships) && b < |ships| && i < NUMBAYS
  {
    var s := ships[b].bays[i];
    s != VACANT && ships[s].docked && ships[s].with == b && ships[s].bay == i
  }

  /** bay_consistency_check: bays that are not truly occupied become vacant. */
  function Checked(ships: seq<Ship>, b: nat): (r: seq<Ship>)
    requires WellFormed(ships) && b < |ships|
    ensures WellFormed(r) && |r| == |ships|
  {
    ships[b := ships[b].(bays := seq(NUMBAYS, i requires 0 <= i < NUMBAYS =>
      if TrulyOccupied(ships, b, i) then ships[b].bays[i] else VACANT))]
  }

  /** Bays in the order bay_closest tries them, for a ship that is dx to the left of its base and
      dy above it. */
  function Order(dx: int, dy: int): (r: seq<nat>)
    ensures |r| == NUMBAYS && forall k :: 0 <= k < NUMBAYS ==> r[k] < NUMBAYS
  {
    if dx > 0 then if dy > 0 then [3, 2, 0, 1] else [2, 3, 1, 0]
    else if dy > 0 then [0, 1, 3, 2] else [1, 2, 0, 3]
  }

  /** The first bay in the order, from place k, that is not truly occupied. */
  function FirstOpen(ships: seq<Ship>, b: nat, order: seq<nat>, k: nat): (r: int)
    requires WellFormed(ships) && b < |ships| && k <= |order| == NUMBAYS
    requires forall j :: 0 <= j < NUMBAYS ==> order[j] < NUMBAYS
    ensures r == -1 || (0 <= r < NUMBAYS && !TrulyOccupied(ships, b, r))
    decreases |order| - k
  {
    if k == |order| then -1 else if !TrulyOccupied(ships, b, order[k]) then order[k] else FirstOpen(ships, b, order, k + 1)
  }

  /** dock(), once the ship is allowed and near enough; a docked ship does not dock again. */
  function Dock(ships: seq<Ship>, me: nat, b: nat, dx: int, dy: int): (r: seq<Ship>)
    requires WellFormed(ships) && me < |ships| && b < |ships| && me != b
    ensures WellFormed(r) && |r| == |ships|
  {
    if ships[me].docked then ships
    else
      var checked := Checked(ships, b);
      var i := FirstOpen(ships, b, Order(dx, dy), 0);
      if i == -1 then checked
      else checked[me := checked[me].(docked := true, with := b, bay := i)][b := checked[b].(bays := checked[b].bays[i := me])]
  }

  /** bay_release; the ship may be its own base in a broken state. */
  function Release(ships: seq<Ship>, me: nat): (r: seq<Ship>)
    requires WellFormed(ships) && me < |ships|
    ensures WellFormed(r) && |r| == |ships|
  {
    if !ships[me].docked then ships
    else
      var b, i := ships[me].with, ships[me].bay;
      var freed := ships[b := ships[b].(bays := ships[b].bays[i := VACANT])];
      freed[me := freed[me].(docked := false)]
  }

  /** bay_release_all, for the first n bays. */
  function ReleaseAll(ships: seq<Ship>, b: nat, n: nat): (r: seq<Ship>)
    requires WellFormed(ships) && b < |ships| && n <= NUMBAYS
    ensures WellFormed(r) && |r| == |ships|
  {
    if n == 0 then ships else OpenBay(ReleaseAll(ships, b, n - 1), b, n - 1)
  }

  function OpenBay(ships: seq<Ship>, b: nat, i: nat): (r: seq<Ship>)
    requires WellFormed(ships) && b < |ships| && i < NUMBAYS
    ensures WellFormed(r) && |r| == |ships|
  {
    var s := ships[b].bays[i];
    if s == VACANT then ships
    else
      var freed := ships[b := ships[b].(bays := ships[b].bays[i := VACANT])];
      freed[s := freed[s].(docked := false)]
  }

  /** The dock flag is cleared without a release, as a tractor beam and transwarp do. */
  function TornAway(ships: seq<Ship>, me: nat): (r: seq<Ship>)
    requires WellFormed(ships) && me < |ships|
    ensures WellFormed(r) && |r| == |ships|
  {
    ships[me := ships[me].(docked := false)]
  }

  // ---- The bays in place ----

  class Galaxy {
    const ships: array<Ship>

    ghost predicate Valid()
      reads this, ships
    {
      WellFormed(ships[..])
    }

    constructor (count: nat)
      requires count > 0
      ensures Valid() && fresh(ships) && ships.Length == count
      ensures forall s :: 0 <= s < count ==> !ships[s].docked && ships[s].bays == [VACANT, VACANT, VACANT, VACANT]
    {
      ships := new Ship[count](_ => Ship(false, 0, 0, [VACANT, VACANT, VACANT, VACANT]));
    }

    method PutBay(b: nat, i: nat, value: int)
      requires Valid() && b < ships.Length && i < NUMBAYS && VACANT <= value < ships.Length
      modifies ships
      ensures Valid() && ships[..] == old(ships[..])[b := old(ships[b]).(bays := old(ships[b]).bays[i := value])]
    {
      ships[b] := ships[b].(bays := ships[b].bays[i := value]);
    }

    method ConsistencyCheck(b: nat)
      requires Valid() && b < ships.Length
      modifies ships
      ensures Valid() && ships[..] == Checked(old(ships[..]), b)
    {
      ghost var before := ships[..];
      for i := 0 to NUMBAYS
        invariant Valid() && ships[..] == before[b := ships[b]] && ships[b] == before[b].(bays := ships[b].bays)
        invariant forall k :: 0 <= k < i ==> ships[b].bays[k] == if TrulyOccupied(before, b, k) then before[b].bays[k] else VACANT
        invariant forall k :: i <= k < NUMBAYS ==> ships[b].bays[k] == before[b].bays[k]
      {
        if ships[b].bays[i] == VACANT { continue; }
        var ship := ships[ships[b].bays[i]];
        if !ship.docked {
          PutBay(b, i, VACANT);
          continue;
        }
        if ship.with != b {
          PutBay(b, i, VACANT);
          continue;
        }
        if ship.bay != i {
          PutBay(b, i, VACANT);
          continue;
        }
      }
      assert ships[b].bays == Checked(before, b)[b].bays;
    }

    method BayClosest(b: nat, dx: int, dy: int) returns (r: int)
      requires Valid() && b < ships.Length
      modifies ships
      ensures Valid() && ships[..] == Checked(old(ships[..]), b)
      ensures r == FirstOpen(old(ships[..]), b, Order(dx, dy), 0)
    {
      ConsistencyCheck(b);
      var bays := ships[b].bays;
      FirstOpenUnrolled(old(ships[..]), b, Order(dx, dy));
      if dx > 0 {
        if dy > 0 {
          if bays[3] == VACANT { return 3; }
          else if bays[2] == VACANT { return 2; }
          else if bays[0] == VACANT { return 0; }
          else if bays[1] == VACANT { return 1; }
          else { return -1; }
        } else {
          if bays[2] == VACANT { return 2; }
          else if bays[3] == VACANT { return 3; }
          else if bays[1] == VACANT { return 1; }
          else if bays[0] == VACANT { return 0; }
          else { return -1; }
        }
      } else {
        if dy > 0 {
          if bays[0] == VACANT { return 0; }
          else if bays[1] == VACANT { return 1; }
          else if bays[3] == VACANT { return 3; }
          else if bays[2] == VACANT { return 2; }
          else { return -1; }
        } else {
          if bays[1] == VACANT { return 1; }
          else if bays[2] == VACANT { return 2; }
          else if bays[0] == VACANT { return 0; }
          else if bays[3] == VACANT { return 3; }
          else { return -1; }
        }
      }
    }

    method DockShip(me: nat, b: nat, dx: int, dy: int)
      requires Valid() && me < ships.Length && b < ships.Length && me != b
      modifies ships
      ensures Valid() && ships[..] == Dock(old(ships[..]), me, b, dx, dy)
    {
      if ships[me].docked { return; }
      var i := BayClosest(b, dx, dy);
      if i == -1 { return; }
      ships[me] := ships[me].(docked := true);
      BayClaim(b, me, i);
    }

    method BayClaim(b: nat, me: nat, i: nat)
      requires Valid() && me < ships.Length && b < ships.Length && i < NUMBAYS && me != b
      modifies ships
      ensures Valid()
      ensures ships[..] == old(ships[..])[me := old(ships[me]).(with := b, bay := i)]
                                         [b := old(ships[b]).(bays := old(ships[b]).bays[i := me])]
    {
      ships[me] := ships[me].(with := b, bay := i);
      PutBay(b, i, me);
    }

    method BayRelease(me: nat)
      requires Valid() && me < ships.Length
      modifies ships
      ensures Valid() && ships[..] == Release(old(ships[..]), me)
    {
      if ships[me].docked {
        var b, i := ships[me].with, ships[me].bay;
        if ships[b].bays[i] != VACANT {
          PutBay(b, i, VACANT);
        } else {
          assert ships[b].bays[i := VACANT] == ships[b].bays;
          assert ships[..][b := ships[b]] == ships[..];
        }
        ships[me] := ships[me].(docked := false);
      }
    }

    method BayReleaseAll(b: nat)
      requires Valid() && b < ships.Length
      modifies ships
      ensures Valid() && ships[..] == ReleaseAll(old(ships[..]), b, NUMBAYS)
    {
      for i := 0 to NUMBAYS
        invariant Valid() && ships[..] == ReleaseAll(old(ships[..]), b, i)
      {
        if ships[b].bays[i] != VACANT {
          var s := ships[b].bays[i];
          PutBay(b, i, VACANT);
          ships[s] := ships[s].(docked := false);
        }
      }
    }
  }

  lemma {:induction false} FirstOpenUnrolled(ships: seq<Ship>, b: nat, order: seq<nat>)
    requires WellFormed(ships) && b < |ships| && |order| == NUMBAYS
    requires forall j :: 0 <= j < NUMBAYS ==> order[j] < NUMBAYS
    ensures FirstOpen(ships, b, order, 0) ==
            if !TrulyOccupied(ships, b, order[0]) then order[0] else if !TrulyOccupied(ships, b, order[1]) then order[1]
            else if !TrulyOccupied(ships, b, order[2]) then order[2] else if !TrulyOccupied(ships, b, order[3]) then order[3] else -1
  {
    var last := FirstOpen(ships, b, order, 3);
    assert last == if !TrulyOccupied(ships, b, order[3]) then order[3] else FirstOpen(ships, b, order, 4);
    assert FirstOpen(ships, b, order, 2) == if !TrulyOccupied(ships, b, order[2]) then order[2] else last;
  }
}

/** Bays and ships agree. */
module BaySafety {
  import opened Bays

  // ---- The check, from any state ----

  /** Main result: whatever the state, after the check every bay of the base is vacant or truly
      occupied, the truly occupied bays keep their ships, no ship is in two bays, and nothing
      else has changed. */
  lemma {:induction false} CheckRepairs(ships: seq<Ship>, b: nat)
    requires WellFormed(ships) && b < |ships|
    ensures var r := Checked(ships, b);
            && (forall i :: 0 <= i < NUMBAYS && r[b].bays[i] != VACANT ==> TrulyOccupied(r, b, i))
            && (forall i :: 0 <= i < NUMBAYS && TrulyOccupied(ships, b, i) ==> r[b].bays[i] == ships[b].bays[i])
            && (forall i, j :: 0 <= i < j < NUMBAYS && r[b].bays[i] != VACANT ==> r[b].bays[i] != r[b].bays[j])
            && (forall s :: 0 <= s < |ships| ==> r[s] == ships[s].(bays := r[s].bays) && (s != b ==> r[s] == ships[s]))
  {
    var r := Checked(ships, b);
    forall i | 0 <= i < NUMBAYS
      ensures r[b].bays[i] != VACANT ==> TrulyOccupied(r, b, i) && TrulyOccupied(ships, b, i)
    {
      if TrulyOccupied(ships, b, i) { assert r[ships[b].bays[i]].docked; }
    }
  }

  /** Docking is refused exactly when all four bays are truly occupied; otherwise the bay is the
      first open one in the order of the ship's quadrant. */
  lemma {:induction false} RefusedExactlyWhenFull(ships: seq<Ship>, b: nat, dx: int, dy: int)
    requires WellFormed(ships) && b < |ships|
    ensures var r := FirstOpen(ships, b, Order(dx, dy), 0);
            && (r == -1 <==> forall i :: 0 <= i < NUMBAYS ==> TrulyOccupied(ships, b, i))
            && (r != -1 ==> exists k :: 0 <= k < NUMBAYS && Order(dx, dy)[k] == r && !TrulyOccupied(ships, b, r)
                              && forall j :: 0 <= j < k ==> TrulyOccupied(ships, b, Order(dx, dy)[j]))
  {
    var order := Order(dx, dy);
    FirstOpenUnrolled(ships, b, order);
    assert 0 in order && 1 in order && 2 in order && 3 in order;
    var r := FirstOpen(ships, b, order, 0);
    if r != -1 {
      var k := if r == order[0] then 0 else if r == order[1] then 1 else if r == order[2] then 2 else 3;
      assert order[k] == r;
    }
  }

  /** Where bay i is, seen from the base: at distance c to the left or right, above or below. */
  function BayX(i: nat, c: nat): int {
    if i == 2 || i == 3 then c else 0 - c
  }

  function BayY(i: nat, c: nat): int {
    if i == 0 || i == 3 then c else 0 - c
  }

  function DistSq(dx: int, dy: int, i: nat, c: nat): int {
    (dx - BayX(i, c)) * (dx - BayX(i, c)) + (dy - BayY(i, c)) * (dy - BayY(i, c))
  }

  lemma {:induction false} Expanded(dx: int, dy: int, i: nat, c: nat)
    ensures DistSq(dx, dy, i, c) == dx * dx + dy * dy + 2 * c * c - 2 * (dx * BayX(i, c)) - 2 * (dy * BayY(i, c))
  {
  }

  /** The first bay tried is the nearest of the four, the last one the farthest. */
  lemma {:induction false} NearestFirst(dx: int, dy: int, c: nat, i: nat)
    requires i < NUMBAYS
    ensures DistSq(dx, dy, Order(dx, dy)[0], c) <= DistSq(dx, dy, i, c) <= DistSq(dx, dy, Order(dx, dy)[3], c)
  {
    Expanded(dx, dy, Order(dx, dy)[0], c);
    Expanded(dx, dy, i, c);
    Expanded(dx, dy, Order(dx, dy)[3], c);
    Signs(dx, c);
    Signs(dy, c);
  }

  lemma {:induction false} Signs(d: int, c: nat)
    ensures d * (0 - c) == -(d * c) && (d >= 0 ==> d * c >= 0) && (d <= 0 ==> d * c <= 0)
  {
  }

  // ---- Runs ----

  /** A docked ship is in the bay it says it is in. */
  predicate Held(ships: seq<Ship>, s: nat)
    requires WellFormed(ships) && s < |ships|
  {
    ships[s].docked ==> ships[ships[s].with].bays[ships[s].bay] == s
  }

  ghost predicate AllHeld(ships: seq<Ship>) {
    WellFormed(ships) && forall s :: 0 <= s < |ships| ==> Held(ships, s)
  }

  /** A bay that is not vacant is truly occupied. */
  ghost predicate AllBack(ships: seq<Ship>) {
    WellFormed(ships) && forall b, i :: 0 <= b < |ships| && 0 <= i < NUMBAYS && ships[b].bays[i] != VACANT ==> TrulyOccupied(ships, b, i)
  }

  datatype Event = Docks(me: nat, b: nat, dx: int, dy: int) | Leaves(s: nat) | Closes(base: nat) | Torn(t: nat)

  predicate Enabled(ships: seq<Ship>, e: Event) {
    match e
    case Docks(me, b, _, _) => me < |ships| && b < |ships| && me != b
    case Leaves(me) => me < |ships|
    case Closes(b) => b < |ships|
    case Torn(me) => me < |ships|
  }

  function Apply(ships: seq<Ship>, e: Event): (r: seq<Ship>)
    requires WellFormed(ships) && Enabled(ships, e)
    ensures WellFormed(r) && |r| == |ships|
  {
    match e
    case Docks(me, b, dx, dy) => Dock(ships, me, b, dx, dy)
    case Leaves(me) => Release(ships, me)
    case Closes(b) => ReleaseAll(ships, b, NUMBAYS)
    case Torn(me) => TornAway(ships, me)
  }

  function After(ships: seq<Ship>, events: seq<Event>): (r: seq<Ship>)
    requires WellFormed(ships)
    ensures WellFormed(r) && |r| == |ships|
  {
    if events == [] then ships
    else
      var before := After(ships, events[..|events| - 1]);
      if Enabled(before, events[|events| - 1]) then Apply(before, events[|events| - 1]) else before
  }

  lemma {:induction false} DockHolds(ships: seq<Ship>, me: nat, b: nat, dx: int, dy: int)
    requires AllHeld(ships) && me < |ships| && b < |ships| && me != b
    ensures AllHeld(Dock(ships, me, b, dx, dy))
  {
    var r := Dock(ships, me, b, dx, dy);
    forall s | 0 <= s < |ships| ensures Held(r, s) {
      assert Held(ships, s);
      if s != me && ships[s].docked && ships[s].with == b { assert TrulyOccupied(ships, b, ships[s].bay); }
    }
  }

  lemma {:induction false} ReleaseHolds(ships: seq<Ship>, me: nat)
    requires AllHeld(ships) && me < |ships|
    ensures AllHeld(Release(ships, me))
  {
    var r := Release(ships, me);
    forall s | 0 <= s < |ships| ensures Held(r, s) { assert Held(ships, s) && Held(ships, me); }
  }

  lemma {:induction false} OpenHolds(ships: seq<Ship>, b: nat, i: nat)
    requires AllHeld(ships) && b < |ships| && i < NUMBAYS
    ensures AllHeld(OpenBay(ships, b, i))
  {
    var r := OpenBay(ships, b, i);
    forall s | 0 <= s < |ships| ensures Held(r, s) { assert Held(ships, s); }
  }

  lemma {:induction false} ReleaseAllHolds(ships: seq<Ship>, b: nat, n: nat)
    requires AllHeld(ships) && b < |ships| && n <= NUMBAYS
    ensures AllHeld(ReleaseAll(ships, b, n))
  {
    if n > 0 {
      ReleaseAllHolds(ships, b, n - 1);
      OpenHolds(ReleaseAll(ships, b, n - 1), b, n - 1);
    }
  }

  lemma {:induction false} TornHolds(ships: seq<Ship>, me: nat)
    requires AllHeld(ships) && me < |ships|
    ensures AllHeld(TornAway(ships, me))
  {
    var r := TornAway(ships, me);
    forall s | 0 <= s < |ships| ensures Held(r, s) { assert Held(ships, s); }
  }

  lemma {:induction false} RunHolds(ships: seq<Ship>, events: seq<Event>)
    requires AllHeld(ships)
    ensures AllHeld(After(ships, events))
  {
    if events != [] {
      var n := |events| - 1;
      RunHolds(ships, events[..n]);
      var before := After(ships, events[..n]);
      if Enabled(before, events[n]) {
        match events[n]
        case Docks(me, b, dx, dy) => DockHolds(before, me, b, dx, dy);
        case Leaves(me) => ReleaseHolds(before, me);
        case Closes(b) => ReleaseAllHolds(before, b, NUMBAYS);
        case Torn(me) => TornHolds(before, me);
      }
    }
  }

  /** Main result: in every run, even with ships torn away, no two docked ships are in one bay,
      and each is in the bay it says. */
  lemma {:induction false} DockedShipsAreHeld(ships: seq<Ship>, events: seq<Event>, s: nat, t: nat)
    requires AllHeld(ships) && s < |ships| && t < |ships| && s != t
    ensures var now := After(ships, events);
            && Held(now, s)
            && (now[s].docked && now[t].docked ==> now[s].with != now[t].with || now[s].bay != now[t].bay)
  {
    RunHolds(ships, events);
    assert Held(After(ships, events), s) && Held(After(ships, events), t);
  }

  // ---- One-to-one ----

  lemma {:induction false} DockBack(ships: seq<Ship>, me: nat, b: nat, dx: int, dy: int)
    requires AllHeld(ships) && AllBack(ships) && me < |ships| && b < |ships| && me != b
    ensures AllBack(Dock(ships, me, b, dx, dy))
  {
    var r := Dock(ships, me, b, dx, dy);
    forall c, i | 0 <= c < |ships| && 0 <= i < NUMBAYS && r[c].bays[i] != VACANT ensures TrulyOccupied(r, c, i) {
      if r[c].bays[i] != me || ships[me].docked { assert TrulyOccupied(ships, c, i); }
      if ships[c].bays[i] == me { assert TrulyOccupied(ships, c, i); }
    }
  }

  lemma {:induction false} ReleaseBack(ships: seq<Ship>, me: nat)
    requires AllHeld(ships) && AllBack(ships) && me < |ships|
    ensures AllBack(Release(ships, me))
  {
    var r := Release(ships, me);
    forall c, i | 0 <= c < |ships| && 0 <= i < NUMBAYS && r[c].bays[i] != VACANT ensures TrulyOccupied(r, c, i) {
      assert TrulyOccupied(ships, c, i);
    }
  }

  lemma {:induction false} OpenBack(ships: seq<Ship>, b: nat, k: nat)
    requires AllBack(ships) && b < |ships| && k < NUMBAYS
    ensures AllBack(OpenBay(ships, b, k))
  {
    var r := OpenBay(ships, b, k);
    if ships[b].bays[k] != VACANT { assert TrulyOccupied(ships, b, k); }
    forall c, i | 0 <= c < |ships| && 0 <= i < NUMBAYS && r[c].bays[i] != VACANT ensures TrulyOccupied(r, c, i) {
      assert TrulyOccupied(ships, c, i);
    }
  }

  lemma {:induction false} ReleaseAllBack(ships: seq<Ship>, b: nat, n: nat)
    requires AllBack(ships) && b < |ships| && n <= NUMBAYS
    ensures AllBack(ReleaseAll(ships, b, n))
  {
    if n > 0 {
      ReleaseAllBack(ships, b, n - 1);
      OpenBack(ReleaseAll(ships, b, n - 1), b, n - 1);
    }
  }

  lemma {:induction false} RunBack(ships: seq<Ship>, events: seq<Event>)
    requires AllHeld(ships) && AllBack(ships) && forall n :: 0 <= n < |events| ==> !events[n].Torn?
    ensures AllBack(After(ships, events))
  {
    if events != [] {
      var n := |events| - 1;
      RunBack(ships, events[..n]);
      RunHolds(ships, events[..n]);
      var before := After(ships, events[..n]);
      if Enabled(before, events[n]) {
        match events[n]
        case Docks(me, b, dx, dy) => DockBack(before, me, b, dx, dy);
        case Leaves(me) => ReleaseBack(before, me);
        case Closes(b) => ReleaseAllBack(before, b, NUMBAYS);
      }
    }
  }

  /** Main result: in every run of docking and releasing, ship s is docked in bay i of base b exactly
      when that bay names s. */
  lemma {:induction false} BaysAgree(ships: seq<Ship>, events: seq<Event>, s: nat, b: nat, i: nat)
    requires AllHeld(ships) && AllBack(ships) && forall n :: 0 <= n < |events| ==> !events[n].Torn?
    requires s < |ships| && b < |ships| && i < NUMBAYS
    ensures var now := After(ships, events);
            now[b].bays[i] == s <==> now[s].docked && now[s].with == b && now[s].bay == i
  {
    RunHolds(ships, events);
    RunBack(ships, events);
    var now := After(ships, events);
    assert Held(now, s);
    if now[b].bays[i] == s { assert TrulyOccupied(now, b, i); }
  }

  /** A base that closes frees every ship docked with it. */
  lemma {:induction false} ClosingFreesAll(ships: seq<Ship>, b: nat, s: nat)
    requires AllHeld(ships) && b < |ships| && s < |ships| && ships[s].docked && ships[s].with == b
    ensures !ReleaseAll(ships, b, NUMBAYS)[s].docked
  {
    assert Held(ships, s);
    OpensUpTo(ships, b, NUMBAYS, s);
  }

  lemma {:induction false} OpensUpTo(ships: seq<Ship>, b: nat, n: nat, s: nat)
    requires AllHeld(ships) && b < |ships| && n <= NUMBAYS && s < |ships| && ships[s].docked && ships[s].with == b
    ensures var r := ReleaseAll(ships, b, n)[s];
            r.docked ==> r.with == b && r.bay == ships[s].bay >= n
  {
    if n > 0 {
      var before := ReleaseAll(ships, b, n - 1);
      OpensUpTo(ships, b, n - 1, s);
      ReleaseAllHolds(ships, b, n - 1);
      assert Held(before, s);
      OpensOne(before, b, n - 1, s);
    }
  }

  lemma {:induction false} OpensOne(ships: seq<Ship>, b: nat, i: nat, s: nat)
    requires AllHeld(ships) && b < |ships| && i < NUMBAYS && s < |ships|
    requires ships[s].docked ==> ships[s].with == b && ships[s].bay >= i
    ensures var r := OpenBay(ships, b, i)[s];
            r.docked ==> ships[s].docked && r.with == b && r.bay == ships[s].bay >= i + 1
  {
    assert Held(ships, s);
  }

  /** Bay i of base b names ship s. */
  ghost predicate NamedBy(ships: seq<Ship>, b: nat, n: nat, s: nat)
    requires WellFormed(ships) && b < |ships| && n <= NUMBAYS
  {
    exists i :: 0 <= i < n && ships[b].bays[i] == s
  }

  /** Main result: from any state, a ship is docked after a base has closed if and only if it was
      docked and no bay of that base named it, wherever the ship says it is docked. */
  lemma {:induction false} ClosingFreesExactly(ships: seq<Ship>, b: nat, s: nat)
    requires WellFormed(ships) && b < |ships| && s < |ships|
    ensures ReleaseAll(ships, b, NUMBAYS)[s].docked
       <==> ships[s].docked && forall i :: 0 <= i < NUMBAYS ==> ships[b].bays[i] != s
  {
    ClosedSoFar(ships, b, NUMBAYS, s);
  }

  lemma {:induction false} ClosedSoFar(ships: seq<Ship>, b: nat, n: nat, s: nat)
    requires WellFormed(ships) && b < |ships| && n <= NUMBAYS && s < |ships|
    ensures var r := ReleaseAll(ships, b, n);
            && (r[s].docked <==> ships[s].docked && !NamedBy(ships, b, n, s))
            && forall i :: n <= i < NUMBAYS ==> r[b].bays[i] == ships[b].bays[i]
  {
    if n > 0 {
      ClosedSoFar(ships, b, n - 1, s);
      if ships[b].bays[n - 1] == s { assert NamedBy(ships, b, n, s); }
      if NamedBy(ships, b, n, s) && ships[b].bays[n - 1] != s {
        var i :| 0 <= i < n && ships[b].bays[i] == s;
        assert NamedBy(ships, b, n - 1, s);
      }
    }
  }

  /** Main result: from a state in which bays and ships agree, tearing a ship away leaves them in
      agreement if and only if the ship was not docked. */
  lemma {:induction false} TornBreaksExactly(ships: seq<Ship>, t: nat)
    requires AllHeld(ships) && AllBack(ships) && t < |ships|
    ensures AllBack(TornAway(ships, t)) <==> !ships[t].docked
  {
    var r := TornAway(ships, t);
    assert Held(ships, t);
    if ships[t].docked {
      var b, i := ships[t].with, ships[t].bay;
      assert r[b].bays[i] == t && !TrulyOccupied(r, b, i);
    } else {
      assert r == ships;
    }
  }

  /** The damage a stale bay can do: a ship torn away from base a and docked with base b loses its
      dock flag when a closes, and bay 1 of b then names a ship that is not docked. */
  lemma {:induction false} StaleBayHurts(ships: seq<Ship>)
    requires WellFormed(ships) && |ships| == 3
    requires ships[0].docked && ships[0].with == 1 && ships[0].bay == 0 && !ships[1].docked && !ships[2].docked
    requires ships[1].bays == [0, VACANT, VACANT, VACANT] && ships[2].bays == [VACANT, VACANT, VACANT, VACANT]
    requires ships[0].bays == [VACANT, VACANT, VACANT, VACANT]
    ensures AllHeld(ships) && AllBack(ships)
    ensures var r := ReleaseAll(Dock(TornAway(ships, 0), 0, 2, 0, 0), 1, NUMBAYS);
            !r[0].docked && r[2].bays[1] == 0
  {
    var torn := TornAway(ships, 0);
    FirstOpenUnrolled(torn, 2, Order(0, 0));
    var docked := Dock(torn, 0, 2, 0, 0);
    assert docked[1].bays == [0, VACANT, VACANT, VACANT] && docked[2].bays[1] == 0;
    ReleaseAllOfOne(docked);
  }

  lemma {:induction false} ReleaseAllOfOne(ships: seq<Ship>)
    requires WellFormed(ships) && |ships| == 3 && ships[1].bays == [0, VACANT, VACANT, VACANT]
    ensures !ReleaseAll(ships, 1, NUMBAYS)[0].docked && ReleaseAll(ships, 1, NUMBAYS)[2].bays == ships[2].bays
  {
    assert ReleaseAll(ships, 1, 0) == ships;
    var r := OpenBay(ships, 1, 0);
    assert ReleaseAll(ships, 1, 1) == r;
    assert r[1].bays == [VACANT, VACANT, VACANT, VACANT];
    assert ReleaseAll(ships, 1, 2) == r;
    assert ReleaseAll(ships, 1, 3) == r;
    assert ReleaseAll(ships, 1, NUMBAYS) == r;
  }
}
