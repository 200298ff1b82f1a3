/** How a ship turns (ntserv/daemon.c, changedir): a heading of 256 directions, and a fraction of
    a thousandth that collects the turn rate. */
module Turning {

  /** `dir` and `desdir` are eight-bit headings; `turns` is the ship's turn rate. */
  datatype Helm = Helm(dir: nat, desdir: nat, subdir: nat, speed: nat, turns: nat)

  predicate Fits(h: Helm) {
    h.dir < 256 && h.desdir < 256
  }

  function PowerOfTwo(n: nat): (r: nat)
    ensures r > 0
  {
    if n == 0 then 1 else 2 * PowerOfTwo(n - 1)
  }

  /** What the turn rate is divided by at a speed. */
  function Divisor(speed: nat, newturn: bool): (r: nat)
    requires speed > 0
    ensures r > 0
  {
    if newturn then speed * speed else if speed < 30 then PowerOfTwo(speed) else 1000000000
  }

  function Quotient(a: nat, b: nat): nat
    requires b > 0
  {
    a / b
  }

  /** What one update adds to the fraction, at speed. */
  function Gain(h: Helm, newturn: bool): nat
    requires h.speed > 0
  {
    Quotient(h.turns, Divisor(h.speed, newturn))
  }

  /** A value kept in eight bits. */
  function Byte(x: int): (r: nat)
    ensures r < 256
    ensures 0 <= x < 256 ==> r == x
    ensures 256 <= x < 512 ==> r == x - 256
    ensures -256 <= x < 0 ==> r == x + 256
  {
    x % 256
  }

  /** The new heading after `ticks` steps. */
  function Turned(dir: nat, desdir: nat, ticks: nat): (r: nat)
    requires dir < 256 && desdir < 256
    ensures r < 256
  {
    var span := if dir > desdir then dir - desdir else desdir - dir;
    if ticks > span || ticks > 256 - span then desdir
    else if Byte(dir - desdir) > 127 then Byte(dir + ticks)
    else Byte(dir - ticks)
  }

  /** The turn of a moving ship whose fraction gains `gain`. */
  function TurnBy(h: Helm, gain: nat): (r: Helm)
    requires Fits(h)
    ensures Fits(r)
  {
    var ticks := (h.subdir + gain) / 1000;
    if ticks == 0 then h.(subdir := h.subdir + gain)
    else h.(dir := Turned(h.dir, h.desdir, ticks), subdir := (h.subdir + gain) % 1000)
  }

  function ChangeDir(h: Helm, newturn: bool): (r: Helm)
    requires Fits(h)
    ensures Fits(r)
  {
    if h.speed == 0 then h.(dir := h.desdir, subdir := 0) else TurnBy(h, Gain(h, newturn))
  }

  /** The update of a ship that is not exploding. */
  function Update(h: Helm, newturn: bool): (r: Helm)
    requires Fits(h)
    ensures Fits(r)
  {
    if h.dir != h.desdir then ChangeDir(h, newturn) else h
  }

  function Updates(h: Helm, newturn: bool, n: nat): (r: Helm)
    requires Fits(h)
    ensures Fits(r)
  {
    if n == 0 then h else Update(Updates(h, newturn, n - 1), newturn)
  }

  // ---- The ship in place ----

  class Ship {
    var dir: nat
    var desdir: nat
    var subdir: nat
    var speed: nat
    const turns: nat

    function Model(): Helm
      reads this
    {
      Helm(dir, desdir, subdir, speed, turns)
    }

    constructor (h: Helm)
      ensures Model() == h
    {
      dir, desdir, subdir, speed, turns := h.dir, h.desdir, h.subdir, h.speed, h.turns;
    }

    method Move(newturn: bool)
      requires Fits(Model())
      modifies this
      ensures Model() == Update(old(Model()), newturn)
    {
      if dir == desdir { return; }
      if speed == 0 {
        dir, subdir := desdir, 0;
        return;
      }
      Collect(Gain(Model(), newturn));
    }

    method Collect(gain: nat)
      requires Fits(Model())
      modifies this
      ensures Model() == TurnBy(old(Model()), gain)
    {
      subdir := subdir + gain;
      var ticks := subdir / 1000;
      if ticks != 0 {
        Steer(ticks);
        subdir := subdir % 1000;
      }
    }

    method Steer(ticks: nat)
      requires Fits(Model())
      modifies `dir
      ensures dir == Turned(old(dir), desdir, ticks)
    {
      var min, max := dir, desdir;
      if dir > desdir { min, max := desdir, dir; }
      if ticks > max - min || ticks > 256 - max + min {
        dir := desdir;
      } else if Byte(dir - desdir) > 127 {
        dir := Byte(dir + ticks);
      } else {
        dir := Byte(dir - ticks);
      }
    }
  }

  // ---- The short way, at the given rate ----

  /** The distance between two headings around the circle. */
  function Dist(a: nat, b: nat): (d: nat)
    requires a < 256 && b < 256
    ensures d == 0 <==> a == b
  {
    var span := if a > b then a - b else b - a;
    if span <= 128 then span else 256 - span
  }

  function Less(a: nat, b: nat): nat {
    if a > b then a - b else 0
  }

  /** Steps shorten the distance one by one, on the way itself, and never beyond the target. */
  lemma {:induction false} TurnsTheShortWay(dir: nat, desdir: nat, ticks: nat)
    requires dir < 256 && desdir < 256
    ensures var d := Turned(dir, desdir, ticks);
            && Dist(d, desdir) == Less(Dist(dir, desdir), ticks)
            && Dist(dir, d) + Dist(d, desdir) == Dist(dir, desdir)
  {
  }

  /** Updates at a fixed gain. */
  function UpdatesBy(h: Helm, gain: nat, n: nat): (r: Helm)
    requires Fits(h)
    ensures Fits(r) && r.desdir == h.desdir && r.speed == h.speed && r.turns == h.turns
  {
    if n == 0 then h
    else
      var before := UpdatesBy(h, gain, n - 1);
      if before.dir != before.desdir then TurnBy(before, gain) else before
  }

  lemma {:induction false} GainIsFixed(h: Helm, newturn: bool, n: nat)
    requires Fits(h) && h.speed > 0
    ensures Updates(h, newturn, n) == UpdatesBy(h, Gain(h, newturn), n)
  {
    if n > 0 {
      GainIsFixed(h, newturn, n - 1);
      SameGain(h, UpdatesBy(h, Gain(h, newturn), n - 1), newturn);
    }
  }

  lemma {:induction false} SameGain(h: Helm, g: Helm, newturn: bool)
    requires g.speed == h.speed > 0 && g.turns == h.turns
    ensures Gain(g, newturn) == Gain(h, newturn)
  {
  }

  /** The turn rate collected by n updates, with what was there before. */
  function Collected(sub: nat, gain: nat, n: nat): nat {
    if n == 0 then sub else Collected(sub, gain, n - 1) + gain
  }

  lemma {:induction false} CollectedIs(sub: nat, gain: nat, n: nat)
    ensures Collected(sub, gain, n) == sub + n * gain
  {
    if n > 0 {
      CollectedIs(sub, gain, n - 1);
      assert n * gain == (n - 1) * gain + gain;
    }
  }

  /** A ship whose distance was `dist` has collected `total`: the whole steps are turned, and, as
      long as the target is not reached, the fraction holds the rest. */
  ghost predicate Tracks(h: Helm, dist: nat, total: nat)
    requires Fits(h)
  {
    && h.subdir < 1000
    && Dist(h.dir, h.desdir) == Less(dist, total / 1000)
    && (h.dir != h.desdir ==> h.subdir == total % 1000)
  }

  lemma {:induction false} TrackStep(h: Helm, dist: nat, total: nat, gain: nat)
    requires Fits(h) && Tracks(h, dist, total)
    ensures Tracks(if h.dir != h.desdir then TurnBy(h, gain) else h, dist, total + gain)
  {
    if h.dir != h.desdir {
      TurnByIs(h, gain);
      LessLess(dist, total / 1000, (h.subdir + gain) / 1000);
      Carry(total, gain);
    } else {
      StaysCovered(dist, total, gain);
    }
  }

  lemma {:induction false} FractionCarries(h: Helm, gain: nat, n: nat) returns (r: Helm)
    requires Fits(h) && h.subdir < 1000
    ensures r == UpdatesBy(h, gain, n) && Tracks(r, Dist(h.dir, h.desdir), Collected(h.subdir, gain, n))
  {
    if n == 0 {
      r := h;
    } else {
      var before := FractionCarries(h, gain, n - 1);
      var total := Collected(h.subdir, gain, n - 1);
      TrackStep(before, Dist(h.dir, h.desdir), total, gain);
      r := if before.dir != before.desdir then TurnBy(before, gain) else before;
    }
  }

  lemma {:induction false} TurnByIs(h: Helm, gain: nat)
    requires Fits(h)
    ensures TurnBy(h, gain).subdir == (h.subdir + gain) % 1000
    ensures Dist(TurnBy(h, gain).dir, h.desdir) == Less(Dist(h.dir, h.desdir), (h.subdir + gain) / 1000)
  {
    TurnsTheShortWay(h.dir, h.desdir, (h.subdir + gain) / 1000);
  }

  lemma {:induction false} LessLess(d: nat, x: nat, y: nat)
    ensures Less(Less(d, x), y) == Less(d, x + y)
  {
  }

  lemma {:induction false} StaysCovered(d: nat, total: nat, gain: nat)
    requires Less(d, total / 1000) == 0
    ensures Less(d, (total + gain) / 1000) == 0
  {
  }

  lemma {:induction false} Carry(total: nat, gain: nat)
    ensures (total % 1000 + gain) / 1000 + total / 1000 == (total + gain) / 1000
    ensures (total % 1000 + gain) % 1000 == (total + gain) % 1000
  {
  }

  /** Main result: with speed and target fixed, after n updates the remaining turn is the distance
      less the whole steps collected, or nothing. */
  lemma {:induction false} RemainingTurn(h: Helm, newturn: bool, n: nat)
    requires Fits(h) && h.speed > 0 && h.subdir < 1000
    ensures Dist(Updates(h, newturn, n).dir, h.desdir)
         == Less(Dist(h.dir, h.desdir), (h.subdir + n * Gain(h, newturn)) / 1000)
  {
    GainIsFixed(h, newturn, n);
    var _ := FractionCarries(h, Gain(h, newturn), n);
    CollectedIs(h.subdir, Gain(h, newturn), n);
  }

  lemma {:induction false} WholeSteps(dist: nat, total: nat)
    ensures Less(dist, total / 1000) == 0 <==> 1000 * dist <= total
  {
  }

  lemma {:induction false} ArrivesBy(h: Helm, gain: nat, n: nat)
    requires Fits(h) && h.subdir < 1000
    ensures UpdatesBy(h, gain, n).dir == h.desdir <==> 1000 * Dist(h.dir, h.desdir) <= Collected(h.subdir, gain, n)
  {
    var _ := FractionCarries(h, gain, n);
    WholeSteps(Dist(h.dir, h.desdir), Collected(h.subdir, gain, n));
  }

  /** Main result: the ship is on its heading exactly when the rate collected covers the distance. */
  lemma {:induction false} ArrivesExactly(h: Helm, newturn: bool, n: nat)
    requires Fits(h) && h.speed > 0 && h.subdir < 1000
    ensures Updates(h, newturn, n).dir == h.desdir
       <==> 1000 * Dist(h.dir, h.desdir) <= h.subdir + n * Gain(h, newturn)
  {
    GainIsFixed(h, newturn, n);
    ArrivesBy(h, Gain(h, newturn), n);
    CollectedIs(h.subdir, Gain(h, newturn), n);
  }

  /** Every update turns along the short way: what it turns and what is left add up. */
  lemma {:induction false} NeverOvershoots(h: Helm, newturn: bool, n: nat)
    requires Fits(h) && h.speed > 0
    ensures var a, b := Updates(h, newturn, n).dir, Updates(h, newturn, n + 1).dir;
            Dist(a, b) + Dist(b, h.desdir) == Dist(a, h.desdir)
  {
    var gain := Gain(h, newturn);
    GainIsFixed(h, newturn, n);
    GainIsFixed(h, newturn, n + 1);
    var before := UpdatesBy(h, gain, n);
    StepOnTheWay(before, gain);
    assert UpdatesBy(h, gain, n + 1) == if before.dir != before.desdir then TurnBy(before, gain) else before;
  }

  lemma {:induction false} StepOnTheWay(h: Helm, gain: nat)
    requires Fits(h)
    ensures var b := (if h.dir != h.desdir then TurnBy(h, gain) else h).dir;
            Dist(h.dir, b) + Dist(b, h.desdir) == Dist(h.dir, h.desdir)
  {
    var ticks := (h.subdir + gain) / 1000;
    NoTicks(h.dir, h.desdir);
    assert TurnBy(h, gain).dir == Turned(h.dir, h.desdir, ticks);
    TurnsTheShortWay(h.dir, h.desdir, ticks);
  }

  lemma {:induction false} NoTicks(dir: nat, desdir: nat)
    requires dir < 256 && desdir < 256
    ensures Turned(dir, desdir, 0) == dir
  {
  }

  /** A ship that stands still turns at once. */
  lemma {:induction false} StandingTurnsAtOnce(h: Helm, newturn: bool, n: nat)
    requires Fits(h) && h.speed == 0
    ensures Updates(h, newturn, n + 1) == if h.dir == h.desdir then h else h.(dir := h.desdir, subdir := 0)
  {
    if n > 0 { StandingTurnsAtOnce(h, newturn, n - 1); }
  }

  /** `v` is 2 to the power of n. */
  ghost predicate Doubled(n: nat, v: int) {
    if n == 0 then v == 1 else v % 2 == 0 && Doubled(n - 1, v / 2)
  }

  lemma {:induction false} PowerIsDoubled(n: nat)
    ensures Doubled(n, PowerOfTwo(n))
  {
    if n > 0 { PowerIsDoubled(n - 1); }
  }

  /** A quotient, without division. */
  predicate IsQuotient(q: int, a: int, b: int) {
    b * q <= a < b * q + b
  }

  /** The rate gained in an update: the turn rate over the square of the speed in the new style, else over 2
      to the power of the speed, or over 1000000000 from speed 30 on. */
  lemma {:induction false} GainExactly(h: Helm, newturn: bool) returns (divisor: int)
    requires h.speed > 0
    ensures IsQuotient(Gain(h, newturn), h.turns, divisor)
    ensures if newturn then divisor == h.speed * h.speed
            else if h.speed < 30 then Doubled(h.speed, divisor) else divisor == 1000000000
  {
    divisor := Divisor(h.speed, newturn);
    PowerIsDoubled(h.speed);
    QuotientIs(h.turns, Divisor(h.speed, newturn));
  }

  lemma {:induction false} QuotientIs(a: nat, b: nat)
    requires b > 0
    ensures IsQuotient(Quotient(a, b), a, b)
  {
  }

  /** Where both ways are equally long, the heading grows. */
  lemma {:induction false} HalfwayTurnsUp(dir: nat, desdir: nat, ticks: nat)
    requires dir < 256 && desdir < 256 && (dir == desdir + 128 || desdir == dir + 128) && ticks <= 128
    ensures Turned(dir, desdir, ticks) == if dir + ticks < 256 then dir + ticks else dir + ticks - 256
  {
  }
}
