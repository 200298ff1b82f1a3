/** The torpedo code in its own form: loops over the torpedo array, each method proved equal to
    its step in module Torps (ntserv/daemon.c, ntserv/torp.c, ntserv/plasma.c, ntserv/detonate.c). */
module TorpDaemon {
  import opened Torps
  import TorpEffects

  class Game {
    const torps: array<Torp>
    var ntorp: seq<int>    // p_ntorp of each player
    var nplasma: seq<int>  // p_nplasmatorp of each player
    const scale: nat       // T_FUSE_SCALE

    ghost function Model(): World
      reads this, torps
    {
      World(torps[..], ntorp, nplasma)
    }

    ghost predicate Valid()
      reads this, torps
    {
      WellFormed(Model()) && scale > 0
    }

    constructor (players: nat, fuseScale: nat)
      requires players > 0 && fuseScale > 0
      ensures Valid() && fresh(torps) && |ntorp| == players && scale == fuseScale
      ensures forall k :: 0 <= k < torps.Length ==> torps[k].status == Free
      ensures forall p :: 0 <= p < players ==> ntorp[p] == nplasma[p] == 0
    {
      torps := new Torp[(MAXTORP + MAXPLASMA) * players](_ => Torp(Free, 0, false, 0));
      ntorp := seq(players, _ => 0);
      nplasma := seq(players, _ => 0);
      scale := fuseScale;
    }

    /** One frame for every slot; `walls` and `nears` are what t_check_wall and t_near find. */
    method UdTorps(walls: seq<bool>, nears: seq<bool>)
      requires Valid() && |walls| == |nears| == torps.Length
      modifies this, torps
      ensures Valid() && Model() == Frame(old(Model()), scale, torps.Length, walls, nears)
      ensures forall k :: 0 <= k < torps.Length ==> TorpEffects.Framed(old(torps[k]), torps[k], scale, walls[k], nears[k])
    {
      for k := 0 to torps.Length
        invariant Valid() && Model() == Frame(old(Model()), scale, k, walls, nears)
      {
        UpdateSlot(k, walls[k], nears[k]);
      }
      forall k | 0 <= k < torps.Length
        ensures TorpEffects.Framed(old(torps[k]), torps[k], scale, walls[k], nears[k])
      {
        TorpEffects.FrameExactly(old(Model()), scale, walls, nears, k);
      }
    }

    method UpdateSlot(k: nat, wall: bool, near: bool)
      requires Valid() && k < torps.Length
      modifies this, torps
      ensures Valid() && Model() == AdvanceSlot(old(Model()), scale, k, wall, near)
    {
      var freed := StepSlot(k, wall, near);
      if freed {
        var owner := torps[k].owner;
        if torps[k].plasma {
          nplasma := nplasma[owner := nplasma[owner] - 1];
        } else {
          ntorp := ntorp[owner := ntorp[owner] - 1];
        }
      }
    }

    /** The switch of udtorps; true if the slot has just become free. */
    method StepSlot(k: nat, wall: bool, near: bool) returns (freed: bool)
      requires Valid() && k < torps.Length
      modifies torps
      ensures torps[..] == old(torps[..])[k := Advance(old(torps[k]), scale, wall, near)]
      ensures freed <==> old(torps[k]).status != Free && torps[k].status == Free
    {
      match torps[k].status {
        case Free =>
          return false;
        case Move =>
          var burnt := torps[k].fuse <= 0;
          torps[k] := torps[k].(fuse := torps[k].fuse - 1);
          if !burnt {
            if wall { ExplodeAt(k); }
            if torps[k].fuse % scale != 0 { return false; }
            if near { ExplodeAt(k); }
            return false;
          }
        case Det =>
          ExplodeAt(k);
          return false;
        case Explode =>
          var burning := torps[k].fuse > 0;
          torps[k] := torps[k].(fuse := torps[k].fuse - 1);
          if burning { return false; }
        case Off =>
      }
      torps[k] := torps[k].(status := Free);
      freed := true;
    }

    method ExplodeAt(k: nat)
      requires k < torps.Length
      modifies torps
      ensures torps[..] == old(torps[..])[k := old(torps[k]).(status := Explode, fuse := 10 * scale)]
    {
      torps[k] := torps[k].(status := Explode, fuse := 10 * scale);
    }

    method FindFree(from: nat, to: nat) returns (k: nat)
      requires from <= to <= torps.Length
      ensures k == FirstFree(torps[..], from, to)
    {
      k := from;
      while k < to
        invariant from <= k <= to && FirstFree(torps[..], from, to) == FirstFree(torps[..], k, to)
      {
        if torps[k].status == Free { return; }
        k := k + 1;
      }
    }

    method NTorp(p: nat, fuse: int)
      requires Valid() && p < |ntorp|
      modifies this, torps
      ensures Valid() && Model() == FirePhoton(old(Model()), p, fuse)
    {
      if ntorp[p] == MAXTORP { return; }
      var k := FindFree(MAXTORP * p, MAXTORP * p + MAXTORP);
      ntorp := ntorp[p := ntorp[p] + 1];
      torps[k] := Torp(Move, p, false, fuse);
    }

    method NPlasmaTorp(p: nat, att: bool, fuse: int)
      requires Valid() && p < |ntorp|
      modifies this, torps
      ensures Valid() && Model() == FirePlasma(old(Model()), p, att, fuse)
    {
      if nplasma[p] == MAXPLASMA {
        if !att { return; }
      }
      var first := MAXTORP * |ntorp| + p;
      var k := FindFree(first, first + MAXPLASMA);
      if k > first + MAXPLASMA - 1 { return; }
      nplasma := nplasma[p := nplasma[p] + 1];
      torps[k] := Torp(Move, p, true, fuse);
    }

    /** The photons in `reach` (hostile, near enough, of a player in the game) detonate. */
    method DetOthersOf(reach: seq<bool>)
      requires Valid() && |reach| == torps.Length
      modifies torps
      ensures Valid() && Model() == DetOthers(old(Model()), reach)
    {
      ghost var before := torps[..];
      for j := 0 to |ntorp|
        invariant Valid()
        invariant forall k :: 0 <= k < MAXTORP * j ==> torps[k] == if reach[k] then Detonated(before[k]) else before[k]
        invariant forall k :: MAXTORP * j <= k < torps.Length ==> torps[k] == before[k]
      {
        for k := MAXTORP * j to MAXTORP * j + MAXTORP
          invariant Valid()
          invariant forall i :: 0 <= i < k ==> torps[i] == if reach[i] then Detonated(before[i]) else before[i]
          invariant forall i :: k <= i < torps.Length ==> torps[i] == before[i]
        {
          if !reach[k] { continue; }
          if torps[k].status == Move { torps[k] := torps[k].(status := Det); }
        }
      }
    }

    method HandleDetMine(p: nat, n: int, all: bool)
      requires Valid() && p < |ntorp|
      modifies torps
      ensures Valid() && Model() == DetMine(old(Model()), p, n, all)
    {
      if n < 0 || n >= MAXTORP * |ntorp| { return; }
      if torps[n].owner != p { return; }
      if all {
        ghost var before := torps[..];
        for k := MAXTORP * p to MAXTORP * p + MAXTORP
          invariant Valid()
          invariant forall i :: 0 <= i < torps.Length ==>
            torps[i] == if PhotonOf(p, i) && i < k then TurnedOff(before[i]) else before[i]
        {
          if torps[k].status == Move { torps[k] := torps[k].(status := Off); }
        }
        return;
      }
      if torps[n].status == Move { torps[n] := torps[n].(status := Off); }
    }

    method CutFuses(p: nat, limit: nat)
      requires Valid() && p < |ntorp|
      modifies torps
      ensures Valid() && Model() == TrimFuses(old(Model()), p, limit)
    {
      ghost var before := torps[..];
      for k := MAXTORP * p to MAXTORP * p + MAXTORP
        invariant Valid()
        invariant forall i :: 0 <= i < torps.Length ==>
          torps[i] == if PhotonOf(p, i) && i < k then Trimmed(before[i], limit) else before[i]
      {
        if torps[k].status == Move && torps[k].fuse > limit { torps[k] := torps[k].(fuse := limit); }
      }
      var k := MAXTORP * |ntorp| + p;
      if torps[k].status == Move && torps[k].fuse > limit { torps[k] := torps[k].(fuse := limit); }
    }
  }
}
