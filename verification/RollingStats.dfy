/** The rolling tournament statistics of a player (ntserv/daemon.c,
    udplayers_palive_update_stats): a ring of closed intervals. */
module RollingStats {

  /** The five counters that roll. */
  datatype Tally = Tally(kills: int, losses: int, armsbomb: int, planets: int, ticks: int)

  const ZERO: Tally := Tally(0, 0, 0, 0, 0)

  function Plus(a: Tally, b: Tally): Tally {
    Tally(a.kills + b.kills, a.losses + b.losses, a.armsbomb + b.armsbomb, a.planets + b.planets, a.ticks + b.ticks)
  }

  function Minus(a: Tally, b: Tally): Tally {
    Tally(a.kills - b.kills, a.losses - b.losses, a.armsbomb - b.armsbomb, a.planets - b.planets, a.ticks - b.ticks)
  }

  lemma {:induction false} PlusZero(a: Tally)
    ensures Plus(a, ZERO) == a == Plus(ZERO, a) == Minus(a, ZERO)
  {
    var Tally(k, l, b, p, t) := a;
  }

  function Sum(s: seq<Tally>): Tally {
    if s == [] then ZERO else Plus(Sum(s[..|s| - 1]), s[|s| - 1])
  }

  /** `t` the st_t totals, `o` their values at the last rollover, `h` the historical totals,
      `ring` st_rolling and `slot` st_rollingslot. */
  datatype Record = Record(t: Tally, o: Tally, h: Tally, ring: seq<Tally>, slot: nat)

  predicate Fits(r: Record) {
    r.slot < |r.ring|
  }

  /** What has been gained since the last rollover. */
  function Current(r: Record): Tally {
    Minus(r.t, r.o)
  }

  function Rollover(r: Record): (r': Record)
    requires Fits(r)
    ensures Fits(r') && |r'.ring| == |r.ring|
  {
    var left := Minus(r.t, r.ring[r.slot]);
    Record(left, left, Plus(r.h, Current(r)), r.ring[r.slot := Current(r)],
           if r.slot + 1 >= |r.ring| then 0 else r.slot + 1)
  }

  /** A tick of tournament play; `interval` is ROLLING_STATS_MASK + 1. */
  function Tick(r: Record, interval: nat): (r': Record)
    requires Fits(r) && interval > 0
    ensures Fits(r') && |r'.ring| == |r.ring|
  {
    var ticked := r.(t := r.t.(ticks := r.t.ticks + 1));
    if ticked.t.ticks % interval == 0 then Rollover(ticked) else ticked
  }

  // ---- The record in place ----

  class Stats {
    var t: Tally
    var o: Tally
    var h: Tally
    const ring: array<Tally>
    var slot: nat

    ghost function Model(): Record
      reads this, ring
    {
      Record(t, o, h, ring[..], slot)
    }

    constructor (slots: nat, ticks: nat)
      requires slots > 0
      ensures fresh(ring) && Model() == Record(ZERO.(ticks := ticks), ZERO, ZERO, seq(slots, _ => ZERO), 0)
    {
      t, o, h, slot := ZERO.(ticks := ticks), ZERO, ZERO, 0;
      ring := new Tally[slots](_ => ZERO);
    }

    method TickOnce(interval: nat)
      requires Fits(Model()) && interval > 0
      modifies this, ring
      ensures Model() == Tick(old(Model()), interval)
    {
      t := t.(ticks := t.ticks + 1);
      if t.ticks % interval == 0 {
        var saved := ring[slot];
        ring[slot] := Minus(t, o);
        t := Minus(t, saved);
        h := Plus(h, ring[slot]);
        o := t;
        slot := slot + 1;
        if slot >= ring.Length { slot := 0; }
      }
    }
  }

  // ---- Runs ----

  /** A kill, a loss, bombing or a planet; or a tick. */
  datatype Event = Gain(d: Tally) | Ticks

  /** The record after a run, with the intervals closed on the way. */
  datatype History = History(r: Record, closed: seq<Tally>)

  function Happen(s: History, interval: nat, e: Event): (s': History)
    requires Fits(s.r) && interval > 0
    ensures Fits(s'.r) && |s'.r.ring| == |s.r.ring|
  {
    match e
    case Gain(d) => s.(r := s.r.(t := Plus(s.r.t, d.(ticks := 0))))
    case Ticks =>
      var ticked := s.r.(t := s.r.t.(ticks := s.r.t.ticks + 1));
      if ticked.t.ticks % interval == 0 then History(Tick(s.r, interval), s.closed + [Current(ticked)])
      else s.(r := Tick(s.r, interval))
  }

  function After(r: Record, interval: nat, events: seq<Event>): (s: History)
    requires Fits(r) && interval > 0
    ensures Fits(s.r) && |s.r.ring| == |r.ring|
  {
    if events == [] then History(r, [])
    else Happen(After(r, interval, events[..|events| - 1]), interval, events[|events| - 1])
  }

  /** Everything gained in a run. */
  function Gained(events: seq<Event>): Tally {
    if events == [] then ZERO
    else Plus(Gained(events[..|events| - 1]), GainOf(events[|events| - 1]))
  }

  function GainOf(e: Event): Tally {
    match e
    case Gain(d) => d.(ticks := 0)
    case Ticks => ZERO.(ticks := 1)
  }

  lemma {:induction false} SumPut(s: seq<Tally>, k: nat, x: Tally)
    requires k < |s|
    ensures Sum(s[k := x]) == Plus(Minus(Sum(s), s[k]), x)
  {
    var n := |s| - 1;
    assert s[k := x][..n] == if k < n then s[..n][k := x] else s[..n];
    if k < n { SumPut(s[..n], k, x); }
  }

  lemma {:induction false} SumPush(s: seq<Tally>, x: Tally)
    ensures Sum(s + [x]) == Plus(Sum(s), x)
  {
    assert (s + [x])[..|s|] == s;
  }

  /** What the totals were before anything in the ring. */
  function Base(r: Record): Tally {
    Minus(r.o, Sum(r.ring))
  }

  /** Everything a player has ever gained. */
  function Ever(r: Record): Tally {
    Plus(r.h, Current(r))
  }

  lemma {:induction false} RolloverBalances(r: Record)
    requires Fits(r)
    ensures Base(Rollover(r)) == Base(r) && Ever(Rollover(r)) == Ever(r)
  {
    SumPut(r.ring, r.slot, Current(r));
  }

  /** What a run that began with record r0 and gained g keeps. */
  ghost predicate Balanced(r0: Record, s: History, g: Tally) {
    Base(s.r) == Base(r0) && Ever(s.r) == Plus(Ever(r0), g) && s.r.h == Plus(r0.h, Sum(s.closed))
  }

  lemma {:induction false} PlusAssoc(a: Tally, b: Tally, c: Tally)
    ensures Plus(Plus(a, b), c) == Plus(a, Plus(b, c))
  {
  }

  lemma {:induction false} TickRolls(s: History, interval: nat)
    requires Fits(s.r) && interval > 0 && (s.r.t.ticks + 1) % interval == 0
    ensures var ticked := s.r.(t := s.r.t.(ticks := s.r.t.ticks + 1));
            Happen(s, interval, Ticks) == History(Rollover(ticked), s.closed + [Current(ticked)])
  {
  }

  /** A change of the totals alone is part of the current interval. */
  lemma {:induction false} GainBalances(r0: Record, s: History, g: Tally, d: Tally)
    requires Fits(s.r) && Balanced(r0, s, g)
    ensures Balanced(r0, s.(r := s.r.(t := Plus(s.r.t, d))), Plus(g, d))
  {
    PlusAssoc(Ever(r0), g, d);
  }

  lemma {:induction false} CloseBalances(r0: Record, r: Record, closed: seq<Tally>, g: Tally)
    requires Fits(r) && Balanced(r0, History(r, closed), g)
    ensures Balanced(r0, History(Rollover(r), closed + [Current(r)]), g)
  {
    RolloverBalances(r);
    SumPush(closed, Current(r));
    PlusAssoc(r0.h, Sum(closed), Current(r));
  }

  lemma {:induction false} HappenBalances(r0: Record, s: History, g: Tally, interval: nat, e: Event)
    requires Fits(s.r) && interval > 0 && Balanced(r0, s, g)
    ensures Balanced(r0, Happen(s, interval, e), Plus(g, GainOf(e)))
  {
    GainBalances(r0, s, g, GainOf(e));
    if e.Ticks? {
      var ticked := s.r.(t := s.r.t.(ticks := s.r.t.ticks + 1));
      assert ticked.t == Plus(s.r.t, GainOf(e));
      if ticked.t.ticks % interval == 0 {
        TickRolls(s, interval);
        CloseBalances(r0, ticked, s.closed, Plus(g, GainOf(e)));
      }
    }
  }

  lemma {:induction false} RunBalances(r: Record, interval: nat, events: seq<Event>) returns (s: History)
    requires Fits(r) && interval > 0
    ensures s == After(r, interval, events) && Balanced(r, s, Gained(events))
  {
    if events == [] {
      s := History(r, []);
      PlusZero(r.h);
      PlusZero(Ever(r));
    } else {
      var n := |events| - 1;
      var before := RunBalances(r, interval, events[..n]);
      HappenBalances(r, before, Gained(events[..n]), interval, events[n]);
      s := Happen(before, interval, events[n]);
    }
  }

  /** Main result: in every run each total stays a fixed constant above the ring and the current
      interval, the historical totals grow by the closed intervals, and nothing gained is lost. */
  lemma {:induction false} TotalsBalance(r: Record, interval: nat, events: seq<Event>)
    requires Fits(r) && interval > 0
    ensures var s := After(r, interval, events);
            && s.r.t == Plus(Plus(Base(r), Sum(s.r.ring)), Current(s.r))
            && s.r.h == Plus(r.h, Sum(s.closed))
            && Plus(s.r.h, Current(s.r)) == Plus(Plus(r.h, Current(r)), Gained(events))
  {
    var s := RunBalances(r, interval, events);
    assert s.r.t == Plus(s.r.o, Current(s.r)) && s.r.o == Plus(Base(s.r), Sum(s.r.ring));
  }

  // ---- The window ----

  ghost predicate Zeros(s: seq<Tally>) {
    forall k :: 0 <= k < |s| ==> s[k] == ZERO
  }

  /** The rolling fields are zero: nothing has rolled yet. */
  ghost predicate Unrolled(r: Record) {
    Fits(r) && r.slot == 0 && r.o == ZERO && r.h == ZERO && Zeros(r.ring)
  }

  function Latest(s: seq<Tally>, n: nat): seq<Tally> {
    if |s| <= n then s else s[|s| - n..]
  }

  /** Slot `slot` is written next; the one written `back` rollovers ago is `back` slots before it. */
  ghost predicate RingHolds(r: Record, closed: seq<Tally>) {
    && Fits(r) && r.slot == |closed| % |r.ring|
    && forall back :: 1 <= back <= |r.ring| ==>
         r.ring[Back(r.slot, back, |r.ring|)] == if back <= |closed| then closed[|closed| - back] else ZERO
  }

  function Back(slot: nat, back: nat, size: nat): (k: nat)
    requires slot < size && 1 <= back <= size
    ensures k < size
  {
    if back <= slot then slot - back else slot + size - back
  }

  lemma {:induction false} StartHolds(r: Record)
    requires Unrolled(r)
    ensures RingHolds(r, [])
  {
  }

  lemma {:induction false} NextSlot(n: nat, size: nat)
    requires size > 0
    ensures (n + 1) % size == if n % size + 1 >= size then 0 else n % size + 1
  {
    var q := n / size;
    assert n + 1 == q * size + (n % size + 1);
    if n % size + 1 >= size {
      assert n + 1 == (q + 1) * size;
      ModOf(q + 1, 0, size);
    } else {
      ModOf(q, n % size + 1, size);
    }
  }

  lemma {:induction false} TimesGrows(d: int, size: int)
    requires d >= 1 && size >= 0
    ensures d * size >= size && (0 - d) * size == -(d * size)
  {
  }

  /** The remainder of q * size + rem is rem. */
  lemma {:induction false} ModOf(q: int, rem: nat, size: nat)
    requires rem < size
    ensures (q * size + rem) % size == rem
  {
    var n := q * size + rem;
    var d := n / size - q;
    assert d * size == rem - n % size by { assert (n / size) * size == n - n % size; }
    if d >= 1 {
      TimesGrows(d, size);
    } else if d <= -1 {
      TimesGrows(-d, size);
    }
  }

  lemma {:induction false} RolloverHolds(r: Record, closed: seq<Tally>)
    requires RingHolds(r, closed)
    ensures RingHolds(Rollover(r), closed + [Current(r)])
  {
    var r' := Rollover(r);
    var closed' := closed + [Current(r)];
    NextSlot(|closed|, |r.ring|);
    forall back | 1 <= back <= |r.ring|
      ensures r'.ring[Back(r'.slot, back, |r.ring|)] == if back <= |closed'| then closed'[|closed'| - back] else ZERO
    {
      if back > 1 {
        assert Back(r'.slot, back, |r.ring|) == Back(r.slot, back - 1, |r.ring|) != r.slot;
      }
    }
  }

  /** Adding the newest interval and dropping the one that leaves the window. */
  lemma {:induction false} LatestPush(s: seq<Tally>, x: Tally, n: nat)
    requires n > 0
    ensures Sum(Latest(s + [x], n)) == Minus(Plus(Sum(Latest(s, n)), x), if |s| < n then ZERO else s[|s| - n])
  {
    if |s| < n {
      SumPush(s, x);
    } else {
      var rest := s[|s| - n + 1..];
      assert Latest(s + [x], n) == rest + [x];
      assert Latest(s, n) == [s[|s| - n]] + rest;
      SumPush(rest, x);
      SumFront(s[|s| - n], rest);
    }
  }

  lemma {:induction false} SumFront(x: Tally, s: seq<Tally>)
    ensures Sum([x] + s) == Plus(x, Sum(s))
  {
    if s == [] {
      assert [x] + s == [x];
      assert Sum([x]) == Plus(Sum([x][..0]), x);
    } else {
      assert ([x] + s)[..|s|] == [x] + s[..|s| - 1];
      SumFront(x, s[..|s| - 1]);
    }
  }

  /** The ring holds the latest closed intervals, so it adds up to them. */
  ghost predicate Windowed(s: History) {
    RingHolds(s.r, s.closed) && Sum(s.r.ring) == Sum(Latest(s.closed, |s.r.ring|))
  }

  lemma {:induction false} RolloverWindowed(r: Record, closed: seq<Tally>)
    requires Windowed(History(r, closed))
    ensures Windowed(History(Rollover(r), closed + [Current(r)]))
  {
    RolloverHolds(r, closed);
    SumPut(r.ring, r.slot, Current(r));
    LatestPush(closed, Current(r), |r.ring|);
    assert Back(r.slot, |r.ring|, |r.ring|) == r.slot;
    SwapLast(Sum(Latest(closed, |r.ring|)), r.ring[r.slot], Current(r));
  }

  lemma {:induction false} SwapLast(a: Tally, b: Tally, c: Tally)
    ensures Plus(Minus(a, b), c) == Minus(Plus(a, c), b)
  {
  }

  lemma {:induction false} HappenWindowed(s: History, interval: nat, e: Event)
    requires Windowed(s) && interval > 0
    ensures Windowed(Happen(s, interval, e))
  {
    if e.Ticks? && (s.r.t.ticks + 1) % interval == 0 {
      var ticked := s.r.(t := s.r.t.(ticks := s.r.t.ticks + 1));
      TickRolls(s, interval);
      RolloverWindowed(ticked, s.closed);
    }
  }

  lemma {:induction false} RingSum(r: Record, interval: nat, events: seq<Event>) returns (s: History)
    requires Unrolled(r) && interval > 0
    ensures s == After(r, interval, events) && Windowed(s)
  {
    if events == [] {
      s := History(r, []);
      StartHolds(r);
      AllZero(r.ring);
    } else {
      var before := RingSum(r, interval, events[..|events| - 1]);
      HappenWindowed(before, interval, events[|events| - 1]);
      s := Happen(before, interval, events[|events| - 1]);
    }
  }

  lemma {:induction false} ZerosShrink(s: seq<Tally>)
    requires s != [] && Zeros(s)
    ensures s == s[..|s| - 1] + [ZERO] && Zeros(s[..|s| - 1])
  {
  }

  lemma {:induction false} AllZero(s: seq<Tally>)
    requires Zeros(s)
    ensures Sum(s) == ZERO
  {
    if s != [] {
      ZerosShrink(s);
      var init := s[..|s| - 1];
      AllZero(init);
      SumPush(init, ZERO);
      PlusZero(ZERO);
    }
  }

  /** Main result: from zeroed rolling fields, the totals are always the last closed intervals,
      as many as the ring has slots, and the current one; the historical totals are all of them. */
  lemma {:induction false} TotalsAreTheWindow(r: Record, interval: nat, events: seq<Event>)
    requires Unrolled(r) && interval > 0
    ensures var s := After(r, interval, events);
            && s.r.t == Plus(Sum(Latest(s.closed, |r.ring|)), Current(s.r))
            && s.r.h == Sum(s.closed)
            && Plus(Sum(s.closed), Current(s.r)) == Plus(r.t, Gained(events))
  {
    var s := RingSum(r, interval, events);
    TotalsBalance(r, interval, events);
    AllZero(r.ring);
    PlusZero(ZERO);
    PlusZero(r.t);
    PlusZero(Sum(s.closed));
    PlusZero(Sum(s.r.ring));
  }

  // ---- The distance between rollovers ----

  lemma {:induction false} MultiplesAdd(a: int, b: int, m: nat)
    requires m > 0 && a % m == 0 && b % m == 0
    ensures (a + b) % m == 0 && (a - b) % m == 0
  {
    var p, q := a / m, b / m;
    assert a == p * m && b == q * m;
    assert a + b == (p + q) * m + 0 && a - b == (p - q) * m + 0;
    ModOf(p + q, 0, m);
    ModOf(p - q, 0, m);
  }

  /** Ticks of every slot, and of the totals at the last rollover, are multiples of the interval. */
  ghost predicate InStep(r: Record, interval: nat)
    requires interval > 0
  {
    && r.o.ticks % interval == 0 && r.o.ticks <= r.t.ticks
    && forall k :: 0 <= k < |r.ring| ==> r.ring[k].ticks % interval == 0
  }

  lemma {:induction false} TicksInStep(r: Record, interval: nat, events: seq<Event>)
    requires Unrolled(r) && interval > 0 && r.t.ticks >= 0
    ensures InStep(After(r, interval, events).r, interval)
  {
    if events != [] {
      var n := |events| - 1;
      TicksInStep(r, interval, events[..n]);
      var s := After(r, interval, events[..n]);
      if events[n].Ticks? && (s.r.t.ticks + 1) % interval == 0 {
        MultiplesAdd(s.r.t.ticks + 1, s.r.o.ticks, interval);
        MultiplesAdd(s.r.t.ticks + 1, s.r.ring[s.r.slot].ticks, interval);
      }
    }
  }

  /** Between rollovers the ticks stay short of the next multiple, except before the first one. */
  ghost predicate Spaced(s: History, interval: nat)
    requires interval > 0
  {
    && InStep(s.r, interval)
    && (s.closed != [] ==> Current(s.r).ticks < interval)
    && forall i :: 1 <= i < |s.closed| ==> s.closed[i].ticks == interval
  }

  lemma {:induction false} NextMultiple(base: int, cur: int, m: nat)
    requires m > 0 && base % m == 0 && 0 <= cur < m
    ensures (base + cur + 1) % m == 0 <==> cur + 1 == m
  {
    if cur + 1 == m {
      MultiplesAdd(base, m, m);
    } else if (base + cur + 1) % m == 0 {
      MultiplesAdd(base + cur + 1, base, m);
      ModOf(0, cur + 1, m);
    }
  }

  /** Main result: from zeroed rolling fields, every rollover after the first comes exactly
      `interval` ticks of tournament play after the one before, and every slot's ticks are a
      multiple of it. */
  lemma {:induction false} RolloversAreSpaced(r: Record, interval: nat, events: seq<Event>)
    requires Unrolled(r) && interval > 0 && r.t.ticks >= 0
    ensures Spaced(After(r, interval, events), interval)
  {
    TicksInStep(r, interval, events);
    if events != [] {
      var n := |events| - 1;
      RolloversAreSpaced(r, interval, events[..n]);
      var s := After(r, interval, events[..n]);
      if events[n].Ticks? && s.closed != [] {
        NextMultiple(s.r.o.ticks, Current(s.r).ticks, interval);
      }
    }
  }
}
