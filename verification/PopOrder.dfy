/** The order in which planets are populated (ntserv/daemon.c, udplanets and RandomizePopOrder):
    a shuffled list, used up from its end, one planet a call. */
module PopOrder {

  const MAXPLANETS: nat := 40

  /** `order` is pl_poporder and `last` lastpop. */
  datatype State = State(order: seq<int>, last: int)

  predicate Fits(s: State) {
    |s.order| == MAXPLANETS && 0 <= s.last < MAXPLANETS
  }

  /** Before the first call. */
  predicate Fresh(s: State) {
    Fits(s) && s.order[0] < 0 && s.last == 0
  }

  function Identity(): (r: seq<int>)
    ensures |r| == MAXPLANETS
  {
    seq(MAXPLANETS, i => i)
  }

  function Swap(order: seq<int>, a: nat, b: nat): (r: seq<int>)
    requires a < |order| && b < |order|
    ensures |r| == |order|
  {
    order[a := order[b]][b := order[a]]
  }

  /** The swaps of the shuffle for positions i down to 1; `draws` is what random() gives. */
  function Shuffle(order: seq<int>, i: nat, draws: seq<nat>): (r: seq<int>)
    requires i < |order| == |draws|
    ensures |r| == |order|
    decreases i
  {
    if i == 0 then order else Shuffle(Swap(order, draws[i] % (i + 1), i), i - 1, draws)
  }

  function Reorder(s: State, draws: seq<nat>): (r: State)
    requires Fits(s) && |draws| == MAXPLANETS
    ensures Fits(r)
  {
    State(Shuffle(if s.order[0] < 0 then Identity() else s.order, MAXPLANETS - 1, draws), MAXPLANETS - 1)
  }

  /** One call: the state after it; the planet populated is order[last]. */
  function Next(s: State, draws: seq<nat>): (r: State)
    requires Fits(s) && |draws| == MAXPLANETS
    ensures Fits(r)
  {
    if s.last - 1 < 0 then Reorder(s, draws) else s.(last := s.last - 1)
  }

  // ---- The list in place ----

  class Population {
    const order: array<int>
    var lastpop: int

    ghost function Model(): State
      reads this, order
    {
      State(order[..], lastpop)
    }

    constructor ()
      ensures fresh(order) && Fresh(Model())
    {
      order := new int[MAXPLANETS](i => if i == 0 then -1 else 0);
      lastpop := 0;
    }

    /** Chooses the planet to populate. */
    method UdPlanets(draws: seq<nat>) returns (planet: int)
      requires Fits(Model()) && |draws| == MAXPLANETS
      modifies this, order
      ensures Model() == Next(old(Model()), draws) && planet == order[lastpop]
    {
      lastpop := lastpop - 1;
      if lastpop < 0 { RandomizePopOrder(draws); }
      planet := order[lastpop];
    }

    method RandomizePopOrder(draws: seq<nat>)
      requires order.Length == |draws| == MAXPLANETS
      modifies this, order
      ensures order[..] == Shuffle(if old(order[0]) < 0 then Identity() else old(order[..]), MAXPLANETS - 1, draws)
      ensures lastpop == MAXPLANETS - 1
    {
      ghost var old0 := order[..];
      if order[0] < 0 {
        for i := 0 to MAXPLANETS
          invariant forall k :: 0 <= k < i ==> order[k] == k
        {
          order[i] := i;
        }
        assert order[..] == Identity();
      }
      ghost var start := order[..];
      var i := MAXPLANETS - 1;
      while i != 0
        invariant 0 <= i < MAXPLANETS
        invariant Shuffle(order[..], i, draws) == Shuffle(start, MAXPLANETS - 1, draws)
      {
        var tmp := draws[i] % (i + 1);
        var tmp2 := order[tmp];
        ghost var before := order[..];
        order[tmp] := order[i];
        order[i] := tmp2;
        assert order[..] == Swap(before, tmp, i);
        i := i - 1;
      }
      lastpop := MAXPLANETS - 1;
    }
  }

  // ---- Every planet, once ----

  ghost predicate Listed(order: seq<int>, p: int) {
    exists i :: 0 <= i < |order| && order[i] == p
  }

  /** Every planet is in the list, in one place only. */
  ghost predicate Permutation(order: seq<int>) {
    && |order| == MAXPLANETS
    && (forall p :: 0 <= p < MAXPLANETS ==> Listed(order, p))
    && (forall i :: 0 <= i < |order| ==> 0 <= order[i] < MAXPLANETS)
    && (forall i, j :: 0 <= i < j < |order| ==> order[i] != order[j])
  }

  lemma {:induction false} SwapKeeps(order: seq<int>, a: nat, b: nat)
    requires Permutation(order) && a < |order| && b < |order|
    ensures Permutation(Swap(order, a, b))
  {
    var r := Swap(order, a, b);
    forall p | 0 <= p < MAXPLANETS ensures Listed(r, p) {
      assert Listed(order, p);
      var i :| 0 <= i < |order| && order[i] == p;
      assert r[if i == a then b else if i == b then a else i] == p;
    }
  }

  lemma {:induction false} ShuffleKeeps(order: seq<int>, i: nat, draws: seq<nat>)
    requires Permutation(order) && i < |order| == |draws|
    ensures Permutation(Shuffle(order, i, draws))
    decreases i
  {
    if i > 0 {
      SwapKeeps(order, draws[i] % (i + 1), i);
      ShuffleKeeps(Swap(order, draws[i] % (i + 1), i), i - 1, draws);
    }
  }

  lemma {:induction false} IdentityIsPermutation()
    ensures Permutation(Identity())
  {
    forall p | 0 <= p < MAXPLANETS ensures Listed(Identity(), p) { assert Identity()[p] == p; }
  }

  /** The list is a permutation, or has never been set up. */
  ghost predicate Inv(s: State) {
    Fits(s) && (Permutation(s.order) || Fresh(s))
  }

  lemma {:induction false} NextKeeps(s: State, draws: seq<nat>)
    requires Inv(s) && |draws| == MAXPLANETS
    ensures Permutation(Next(s, draws).order)
  {
    if s.last - 1 < 0 {
      if s.order[0] < 0 {
        IdentityIsPermutation();
        ShuffleKeeps(Identity(), MAXPLANETS - 1, draws);
      } else {
        ShuffleKeeps(s.order, MAXPLANETS - 1, draws);
      }
    }
  }

  /** What random() gives, for every call in a run. */
  predicate Drawn(draws: seq<seq<nat>>) {
    forall n :: 0 <= n < |draws| ==> |draws[n]| == MAXPLANETS
  }

  /** The state after the first n calls. */
  function After(s: State, draws: seq<seq<nat>>, n: nat): (r: State)
    requires Fits(s) && Drawn(draws) && n <= |draws|
    ensures Fits(r)
  {
    if n == 0 then s else Next(After(s, draws, n - 1), draws[n - 1])
  }

  /** The planet populated by call n, counted from 0. */
  function Populated(s: State, draws: seq<seq<nat>>, n: nat): int
    requires Fits(s) && Drawn(draws) && n < |draws|
  {
    var now := After(s, draws, n + 1);
    now.order[now.last]
  }

  lemma {:induction false} OrderIsPermutation(s: State, draws: seq<seq<nat>>, n: nat)
    requires Fresh(s) && Drawn(draws) && 0 < n <= |draws|
    ensures Permutation(After(s, draws, n).order)
  {
    if n > 1 { OrderIsPermutation(s, draws, n - 1); }
    NextKeeps(After(s, draws, n - 1), draws[n - 1]);
  }

  /** The place in the list counts down from the end, once around every MAXPLANETS calls. */
  lemma {:induction false} LastAfter(s: State, draws: seq<seq<nat>>, n: nat)
    requires Fresh(s) && Drawn(draws) && n <= |draws|
    ensures (n + After(s, draws, n).last) % MAXPLANETS == 0
  {
    if n > 0 {
      LastAfter(s, draws, n - 1);
      NextCountsDown(After(s, draws, n - 1), draws[n - 1]);
      CountedDown(n - 1, After(s, draws, n - 1).last, After(s, draws, n).last);
    }
  }

  lemma {:induction false} CountedDown(n: nat, last: int, last': int)
    requires (n + last) % MAXPLANETS == 0
    requires last' == if last == 0 then MAXPLANETS - 1 else last - 1
    ensures (n + 1 + last') % MAXPLANETS == 0
  {
    if last == 0 {
      assert n + 1 + last' == n + MAXPLANETS;
      assert (n + MAXPLANETS) % MAXPLANETS == 0;
    }
  }

  lemma {:induction false} NextCountsDown(s: State, draws: seq<nat>)
    requires Fits(s) && |draws| == MAXPLANETS
    ensures s.last == 0 ==> Next(s, draws).last == MAXPLANETS - 1
    ensures s.last > 0 ==> Next(s, draws) == s.(last := s.last - 1)
  {
  }

  /** Within a block of MAXPLANETS calls the list does not change. */
  lemma {:induction false} OrderInBlock(s: State, draws: seq<seq<nat>>, k: nat, j: nat)
    requires Fresh(s) && Drawn(draws) && j < MAXPLANETS && MAXPLANETS * k + j < |draws|
    ensures After(s, draws, MAXPLANETS * k + j + 1) == State(After(s, draws, MAXPLANETS * k + 1).order, MAXPLANETS - 1 - j)
  {
    var n := MAXPLANETS * k + j;
    if j == 0 {
      BlockStarts(s, draws, k);
    } else {
      OrderInBlock(s, draws, k, j - 1);
    }
    NextCountsDown(After(s, draws, n), draws[n]);
    assert After(s, draws, n + 1) == Next(After(s, draws, n), draws[n]);
  }

  lemma {:induction false} BlockStarts(s: State, draws: seq<seq<nat>>, k: nat)
    requires Fresh(s) && Drawn(draws) && MAXPLANETS * k <= |draws|
    ensures After(s, draws, MAXPLANETS * k).last == 0
  {
    LastAfter(s, draws, MAXPLANETS * k);
  }

  lemma {:induction false} PlanetInBlock(s: State, draws: seq<seq<nat>>, k: nat, n: nat)
    requires Fresh(s) && Drawn(draws) && MAXPLANETS * k <= n < MAXPLANETS * k + MAXPLANETS && n < |draws|
    ensures Populated(s, draws, n) == After(s, draws, MAXPLANETS * k + 1).order[MAXPLANETS * k + MAXPLANETS - 1 - n]
  {
    OrderInBlock(s, draws, k, n - MAXPLANETS * k);
  }

  /** Main result: in every block of MAXPLANETS calls, each planet is populated by exactly one. */
  lemma {:induction false} EveryBlockPopulatesAll(s: State, draws: seq<seq<nat>>, k: nat, p: nat)
      returns (n: nat)
    requires Fresh(s) && Drawn(draws) && p < MAXPLANETS && MAXPLANETS * k + MAXPLANETS <= |draws|
    ensures MAXPLANETS * k <= n < MAXPLANETS * k + MAXPLANETS && Populated(s, draws, n) == p
    ensures forall m :: MAXPLANETS * k <= m < MAXPLANETS * k + MAXPLANETS && Populated(s, draws, m) == p ==> m == n
  {
    var order := After(s, draws, MAXPLANETS * k + 1).order;
    OrderIsPermutation(s, draws, MAXPLANETS * k + 1);
    assert Listed(order, p);
    var i :| 0 <= i < MAXPLANETS && order[i] == p;
    n := MAXPLANETS * k + (MAXPLANETS - 1 - i);
    forall m | MAXPLANETS * k <= m < MAXPLANETS * k + MAXPLANETS
      ensures Populated(s, draws, m) == order[MAXPLANETS * k + MAXPLANETS - 1 - m]
    {
      PlanetInBlock(s, draws, k, m);
    }
  }

  /** Main result: any 2 * MAXPLANETS - 1 calls in a row populate every planet. */
  lemma {:induction false} EveryWindowReachesAll(s: State, draws: seq<seq<nat>>, start: nat, p: nat)
      returns (n: nat)
    requires Fresh(s) && Drawn(draws) && p < MAXPLANETS && start + 2 * MAXPLANETS - 1 <= |draws|
    ensures start <= n < start + 2 * MAXPLANETS - 1 && Populated(s, draws, n) == p
  {
    var k := (start + MAXPLANETS - 1) / MAXPLANETS;
    n := EveryBlockPopulatesAll(s, draws, k, p);
  }

  // ---- The window cannot be shorter ----

  /** Draws that swap the ends of the list and leave the rest. */
  function EndsSwapped(): (r: seq<nat>)
    ensures |r| == MAXPLANETS
  {
    seq(MAXPLANETS, i => if i == MAXPLANETS - 1 then 0 else i)
  }

  lemma {:induction false} RestStays(order: seq<int>, i: nat)
    requires i < MAXPLANETS - 1 && |order| == MAXPLANETS
    ensures Shuffle(order, i, EndsSwapped()) == order
  {
    if i > 0 {
      assert EndsSwapped()[i] % (i + 1) == i;
      assert Swap(order, i, i) == order;
      RestStays(order, i - 1);
    }
  }

  lemma {:induction false} LastBecomesFirst(order: seq<int>)
    requires |order| == MAXPLANETS
    ensures Shuffle(order, MAXPLANETS - 1, EndsSwapped())[0] == order[MAXPLANETS - 1]
  {
    RestStays(Swap(order, 0, MAXPLANETS - 1), MAXPLANETS - 2);
  }

  /** One call fewer is not enough: some run has a planet that 2 * MAXPLANETS - 2 calls in a row miss. */
  lemma {:induction false} ShorterWindowMisses(s: State) returns (draws: seq<seq<nat>>, p: nat)
    requires Fresh(s)
    ensures Drawn(draws) && |draws| == 2 * MAXPLANETS && p < MAXPLANETS
    ensures forall n :: 1 <= n <= 2 * MAXPLANETS - 2 ==> Populated(s, draws, n) != p
  {
    draws := seq(2 * MAXPLANETS, _ => EndsSwapped());
    OrderIsPermutation(s, draws, 1);
    OrderInBlock(s, draws, 0, 0);
    p := Populated(s, draws, 0);
    var full := After(s, draws, MAXPLANETS);
    OrderInBlock(s, draws, 0, MAXPLANETS - 1);
    OrderInBlock(s, draws, 1, MAXPLANETS - 1);
    assert full.last == 0 && full.order[MAXPLANETS - 1] == p;
    assert After(s, draws, MAXPLANETS + 1) == Next(full, EndsSwapped());
    LastBecomesFirst(full.order);
    assert Populated(s, draws, 2 * MAXPLANETS - 1) == p;
    var first := EveryBlockPopulatesAll(s, draws, 0, p);
    var second := EveryBlockPopulatesAll(s, draws, 1, p);
  }

  // ---- Every order can come out ----

  /** The two lists agree from place i + 1 on. */
  predicate AgreeFrom(a: seq<int>, b: seq<int>, i: nat) {
    |a| == |b| && forall k :: i < k < |a| ==> a[k] == b[k]
  }

  lemma {:induction false} DrawsBelow(order: seq<int>, i: nat, draws: seq<nat>, draws': seq<nat>)
    requires i < |order| == |draws| == |draws'| && forall k :: 0 < k <= i ==> draws[k] == draws'[k]
    ensures Shuffle(order, i, draws) == Shuffle(order, i, draws')
    decreases i
  {
    if i > 0 { DrawsBelow(Swap(order, draws[i] % (i + 1), i), i - 1, draws, draws'); }
  }

  /** Where the planet that belongs in place i is now. */
  lemma {:induction false} PlaceOf(order: seq<int>, target: seq<int>, i: nat) returns (a: nat)
    requires Permutation(order) && Permutation(target) && i < MAXPLANETS && AgreeFrom(order, target, i)
    ensures a <= i && order[a] == target[i] && (i == 0 ==> a == 0)
  {
    assert Listed(order, target[i]);
    var k :| 0 <= k < |order| && order[k] == target[i];
    a := k;
  }

  lemma {:induction false} DrawsFor(order: seq<int>, target: seq<int>, i: nat) returns (draws: seq<nat>)
    requires Permutation(order) && Permutation(target) && i < MAXPLANETS && AgreeFrom(order, target, i)
    ensures |draws| == MAXPLANETS && Shuffle(order, i, draws) == target
    decreases i
  {
    var a := PlaceOf(order, target, i);
    if i == 0 {
      draws := seq(MAXPLANETS, _ => 0);
      AgreeFromStart(order, target);
    } else {
      var order' := Swap(order, a, i);
      SwapKeeps(order, a, i);
      SwapAgrees(order, target, a, i);
      var below := DrawsFor(order', target, i - 1);
      draws := below[i := a];
      DrawsBelow(order', i - 1, below, draws);
      ShuffleStep(order, i, draws, a);
    }
  }

  lemma {:induction false} AgreeFromStart(order: seq<int>, target: seq<int>)
    requires |order| > 0 && AgreeFrom(order, target, 0) && order[0] == target[0]
    ensures order == target
  {
  }

  /** The planet that belongs in place i has been put there. */
  lemma {:induction false} SwapAgrees(order: seq<int>, target: seq<int>, a: nat, i: nat)
    requires a <= i < |order| && AgreeFrom(order, target, i) && order[a] == target[i] && i > 0
    ensures AgreeFrom(Swap(order, a, i), target, i - 1)
  {
  }

  lemma {:induction false} ShuffleStep(order: seq<int>, i: nat, draws: seq<nat>, a: nat)
    requires 0 < i < |order| == |draws| && draws[i] == a <= i
    ensures Shuffle(order, i, draws) == Shuffle(Swap(order, a, i), i - 1, draws)
  {
    assert a % (i + 1) == a;
  }

  /** Main result: every order of the planets can come out of a shuffle of any other. */
  lemma {:induction false} EveryOrderCanCome(s: State, target: seq<int>) returns (draws: seq<nat>)
    requires Fits(s) && s.last == 0 && (Permutation(s.order) || s.order[0] < 0) && Permutation(target)
    ensures |draws| == MAXPLANETS && Next(s, draws) == State(target, MAXPLANETS - 1)
  {
    IdentityIsPermutation();
    draws := DrawsFor(if s.order[0] < 0 then Identity() else s.order, target, MAXPLANETS - 1);
  }
}
