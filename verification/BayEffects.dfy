/** What docking and releasing do, ship by ship and bay by bay. */
module BayEffects {
  import opened Bays
  import opened BaySafety

  /** Bay i of base b has a ship that says so itself. */
  predicate HasShip(ships: seq<Ship>, b: nat, i: nat)
    requires WellFormed(ships) && b < |ships| && i < 4
  {
    var s := ships[b].bays[i];
    s != VACANT && ships[s].docked && ships[s].with == b && ships[s].bay == i
  }

  /** The bays in the order in which they are tried, by the side from which the ship comes. */
  function Tries(dx: int, dy: int): (r: seq<nat>)
    ensures |r| == 4 && forall k :: 0 <= k < 4 ==> r[k] < 4
  {
    if dx > 0 && dy > 0 then [3, 2, 0, 1]
    else if dx > 0 then [2, 3, 1, 0]
    else if dy > 0 then [0, 1, 3, 2]
    else [1, 2, 0, 3]
  }

  /** Bay i is the first without a ship. */
  ghost predicate FirstFreeBay(ships: seq<Ship>, b: nat, dx: int, dy: int, i: int)
    requires WellFormed(ships) && b < |ships|
  {
    exists k :: 0 <= k < 4 && Tries(dx, dy)[k] == i && !HasShip(ships, b, i)
                && forall n :: 0 <= n < k ==> HasShip(ships, b, Tries(dx, dy)[n])
  }

  /** The bays of a base without those that have no ship, and with a new one in bay i. */
  ghost predicate BaysAfter(ships: seq<Ship>, bays: seq<int>, b: nat, i: int, me: int)
    requires WellFormed(ships) && b < |ships|
  {
    && |bays| == 4
    && forall n :: 0 <= n < 4 ==> bays[n] == if n == i then me else if HasShip(ships, b, n) then ships[b].bays[n] else VACANT
  }

  lemma {:induction false} FirstOpenExactly(ships: seq<Ship>, b: nat, dx: int, dy: int)
    requires WellFormed(ships) && b < |ships|
    ensures var i := FirstOpen(ships, b, Order(dx, dy), 0);
            && (i != -1 ==> FirstFreeBay(ships, b, dx, dy, i))
            && (i == -1 ==> forall n :: 0 <= n < 4 ==> HasShip(ships, b, n))
            && (forall n :: FirstFreeBay(ships, b, dx, dy, n) ==> n == i)
  {
    var order := Tries(dx, dy);
    assert Order(dx, dy) == order;
    FirstOpenUnrolled(ships, b, order);
    assert forall n: nat :: n < 4 ==> HasShip(ships, b, n) == TrulyOccupied(ships, b, n);
    assert {order[0], order[1], order[2], order[3]} == {0, 1, 2, 3};
  }

  /** Main result: a ship that is not docked takes the first bay without a ship, if there is one; the base
      forgets ships that are not there; nothing else changes, and nothing at all for a docked ship. */
  lemma {:induction false} DockExactly(ships: seq<Ship>, me: nat, b: nat, dx: int, dy: int)
    requires WellFormed(ships) && me < |ships| && b < |ships| && me != b
    ensures var r := Dock(ships, me, b, dx, dy);
            if ships[me].docked then r == ships
            else
              && (forall n :: 0 <= n < |ships| && n != me && n != b ==> r[n] == ships[n])
              && r[b] == ships[b].(bays := r[b].bays)
              && (forall i :: FirstFreeBay(ships, b, dx, dy, i) ==>
                    r[me] == ships[me].(docked := true, with := b, bay := i) && BaysAfter(ships, r[b].bays, b, i, me))
              && ((forall i :: 0 <= i < 4 ==> HasShip(ships, b, i)) ==>
                    r[me] == ships[me] && BaysAfter(ships, r[b].bays, b, -1, me))
  {
    FirstOpenExactly(ships, b, dx, dy);
    assert forall n: nat :: n < 4 ==> HasShip(ships, b, n) == TrulyOccupied(ships, b, n);
  }

  /** Main result: a docked ship is undocked and its bay vacated, and nothing else changes; nothing at all
      for a ship that is not docked. */
  lemma {:induction false} ReleaseExactly(ships: seq<Ship>, me: nat)
    requires WellFormed(ships) && me < |ships|
    ensures var r, b := Release(ships, me), ships[me].with;
            if !ships[me].docked then r == ships
            else
              && !r[me].docked && r[b].bays == ships[b].bays[ships[me].bay := VACANT]
              && forall n :: 0 <= n < |ships| ==>
                   r[n] == ships[n].(docked := r[n].docked, bays := r[n].bays)
                   && (n != me ==> r[n].docked == ships[n].docked) && (n != b ==> r[n].bays == ships[n].bays)
  {
  }
}
