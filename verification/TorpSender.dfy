/** The sender of short torpedo packets (ntserv/genspkt.c, SupdateTorps), in place. */
module TorpSender {
  import opened BitStream
  import opened TorpPacket
  import opened TorpContent

  class Sender {
    const buffer: array<bv8>  // clientVTorps
    const tinfo: array<bv8>   // clientVTorpsInfo
    var caches: seq<Cache>    // clientTorpsInfo and clientTorps

    ghost predicate Valid()
      reads this
    {
      buffer.Length == 40 && tinfo.Length == 16 && buffer != tinfo && |caches| == 8 * GROUPS
    }

    constructor (initial: seq<Cache>)
      requires |initial| == 8 * GROUPS
      ensures Valid() && caches == initial && fresh(buffer) && fresh(tinfo)
    {
      buffer, tinfo, caches := new bv8[40], new bv8[16], initial;
    }

    /** `dx <<= shift; *p++ |= dx & 255; *p = dx >> 8; shift++`. */
    method PutNine(at: nat, shift: nat, v: bv16, ghost values: seq<bv16>)
      requires Valid() && Packed(buffer[..], at, shift, values) && shift < 8 && |values| < 16 && v < 512
      modifies buffer
      ensures Packed(buffer[..], at + 1, shift + 1, values + [v])
    {
      PackOne(buffer[..], at, shift, values, v);
      buffer[at] := buffer[at] | Low(v, shift);
      buffer[at + 1] := High(v, shift);
      assert buffer[..] == Written(old(buffer[..]), at, shift, v);
    }

    method PutTwo(at: nat, shift: nat, x: bv16, y: bv16, ghost values: seq<bv16>)
      requires Valid() && Packed(buffer[..], at, shift, values) && shift < 7
      requires |values| <= 14 && x < 512 && y < 512
      modifies buffer
      ensures Packed(buffer[..], at + 2, shift + 2, values + [x, y])
    {
      PutNine(at, shift, x, values);
      PutNine(at + 1, shift + 1, y, values + [x]);
      OneByOne(values, x, y);
    }

    /** Both coordinates of one torpedo, then move to a clean byte if this one is full. */
    method PutPair(at: nat, shift: nat, x: bv16, y: bv16, ghost values: seq<bv16>) returns (at': nat, shift': nat)
      requires Valid() && Packed(buffer[..], at, shift, values) && shift < 8 && shift % 2 == 0
      requires |values| <= 14 && x < 512 && y < 512
      modifies buffer
      ensures Packed(buffer[..], at', shift', values + [x, y]) && shift' < 8 && shift' % 2 == 0
    {
      PutTwo(at, shift, x, y, values);
      at', shift' := at + 2, shift + 2;
      if shift' == 8 {
        ClearNext(at', values + [x, y]);
        at', shift' := at' + 1, 0;
      }
    }

    /** `shift = 0; *++p = 0`. */
    method ClearNext(at: nat, ghost values: seq<bv16>)
      requires Valid() && Packed(buffer[..], at, 8, values)
      modifies buffer
      ensures Packed(buffer[..], at + 1, 0, values)
    {
      ghost var before := buffer[..];
      buffer[at + 1] := 0;
      forall k | 0 <= k < |values|
        ensures Field(NineBits, buffer[..], 4, k) == Field(NineBits, before, 4, k)
      {
        assert 9 * k <= 8 * (at - 4) + 8 - 9;
        assert 4 + 9 * k / 8 + 1 <= at;
        assert buffer[..][4 + 9 * k / 8] == before[4 + 9 * k / 8];
        assert buffer[..][4 + 9 * k / 8 + 1] == before[4 + 9 * k / 8 + 1];
      }
    }

    /** One torpedo's info byte. */
    method PackInfo(i: nat, info: Option<bv8>, infoBits: bv8, numInfos: nat, ghost infos: seq<Option<bv8>>)
      returns (infoBits': bv8, numInfos': nat)
      requires Valid() && i < 8 && |infos| == i && InfoProgress(tinfo[..], infoBits, numInfos, infos)
      modifies tinfo
      ensures InfoProgress(tinfo[..], infoBits', numInfos', infos + [info])
    {
      infoBits', numInfos' := infoBits, numInfos;
      MarkedNext(infoBits, Flags(infos), info.Some?);
      assert Flags(infos + [info]) == Flags(infos) + [info.Some?];
      PresentAppend(infos, info);
      if info.Some? {
        infoBits' := infoBits | Mask(i);
        tinfo[numInfos] := info.value;
        numInfos' := numInfos + 1;
      }
    }

    /** One torpedo's position. */
    method PackPosition(i: nat, coord: Option<(bv16, bv16)>, at: nat, shift: nat, torpBits: bv8, numTorps: nat,
                        ghost coords: seq<Option<(bv16, bv16)>>)
      returns (at': nat, shift': nat, torpBits': bv8, numTorps': nat)
      requires Valid() && i < 8 && |coords| == i && FitsNineBits(coord)
      requires CoordProgress(buffer[..], at, shift, torpBits, numTorps, coords)
      modifies buffer
      ensures CoordProgress(buffer[..], at', shift', torpBits', numTorps', coords + [coord])
    {
      at', shift', torpBits', numTorps' := at, shift, torpBits, numTorps;
      MarkedNext(torpBits, Flags(coords), coord.Some?);
      assert Flags(coords + [coord]) == Flags(coords) + [coord.Some?];
      NumbersAppend(coords, coord);
      if coord.Some? {
        torpBits' := torpBits | Mask(i);
        numTorps' := numTorps + 1;
        at', shift' := PutPair(at, shift, coord.value.0, coord.value.1, Numbers(coords));
      }
    }

    /** The inner loop: pack the eight torpedoes of a group and update their cache entries. */
    method PackGroup(group: nat, items: seq<Item>)
      returns (torpBits: bv8, infoBits: bv8, numTorps: nat, numInfos: nat, mustSend: bool)
      requires Valid() && group < GROUPS && |items| == 8
      requires forall k :: 0 <= k < 8 ==> FitsNineBits(items[k].coord)
      modifies this`caches, buffer, tinfo
      ensures Valid() && caches == Updated(old(caches), group, items)
      ensures PackedGroup(buffer[..], tinfo[..], torpBits, infoBits, numTorps, numInfos, mustSend, items)
    {
      var at, shift := 4, 0;
      torpBits, infoBits, numTorps, numInfos, mustSend := 0, 0, 0, 0, false;
      buffer[4] := 0;
      NothingPacked(buffer[..], tinfo[..], items[..0], caches, group);
      for i := 0 to 8
        invariant Valid() && caches == Updated(old(caches), group, items[..i])
        invariant CoordProgress(buffer[..], at, shift, torpBits, numTorps, Coords(items[..i]))
        invariant InfoProgress(tinfo[..], infoBits, numInfos, InfoBytes(items[..i]))
        invariant mustSend == AnyGone(items[..i])
      {
        PrefixStep(items, i, old(caches), group);
        caches := caches[8 * group + i := items[i].cache];
        infoBits, numInfos := PackInfo(i, items[i].info, infoBits, numInfos, InfoBytes(items[..i]));
        at, shift, torpBits, numTorps :=
          PackPosition(i, items[i].coord, at, shift, torpBits, numTorps, Coords(items[..i]));
        mustSend := mustSend || items[i].gone;
      }
      assert items[..8] == items;
      ProgressDone(buffer[..], tinfo[..], at, shift, torpBits, infoBits, numTorps, numInfos, mustSend, items);
    }

    /** SupdateTorps: every group of eight torpedoes gets the packet that carries it, if it
        needs one, and every cache entry ends up describing what was last sent. */
    method UpdateTorps(torps: seq<Torp>, v: Viewer) returns (packets: seq<seq<bv8>>)
      requires Valid() && |torps| == 8 * GROUPS
      modifies this`caches, buffer, tinfo
      ensures Valid() && |packets| == GROUPS
      ensures forall g: nat :: g < GROUPS ==> Carries(packets[g], g, Items(torps, v, old(caches), g))
      ensures forall k :: 0 <= k < 8 * GROUPS ==> caches[k] == Select(torps[k], v, old(caches)[k]).cache
      ensures AllStatuses(torps) ==>
                && (forall g: nat :: g < GROUPS ==> GroupSays(packets[g], g, torps, v, old(caches)))
                && forall k :: 0 <= k < 8 * GROUPS ==> Notes(caches[k], torps[k], v, old(caches)[k])
    {
      packets := [];
      for group := 0 to GROUPS
        invariant Valid() && |packets| == group
        invariant forall g: nat :: g < group ==> Carries(packets[g], g, Items(torps, v, old(caches), g))
        invariant caches == UpTo(torps, v, old(caches), group)
      {
        SameItems(torps, v, old(caches), group);
        var packet := SendGroup(group, torps, v);
        packets := packets + [packet];
      }
      UpdateSays(torps, v, old(caches), packets, caches);
    }

    /** The outer loop's body: decide about eight torpedoes, then pack and send them. */
    method SendGroup(group: nat, torps: seq<Torp>, v: Viewer) returns (packet: seq<bv8>)
      requires Valid() && group < GROUPS && |torps| == 8 * GROUPS
      modifies this`caches, buffer, tinfo
      ensures Valid() && caches == Updated(old(caches), group, Items(torps, v, old(caches), group))
      ensures Carries(packet, group, Items(torps, v, old(caches), group))
    {
      var items := Items(torps, v, caches, group);
      ItemsFitNineBits(torps, v, caches, group);
      packet := SendItems(group, items);
    }

    /** Send a group in the smallest layout that carries it. */
    method SendItems(group: nat, items: seq<Item>) returns (packet: seq<bv8>)
      requires Valid() && group < GROUPS && |items| == 8
      requires forall k :: 0 <= k < 8 ==> FitsNineBits(items[k].coord)
      modifies this`caches, buffer, tinfo
      ensures Valid() && caches == Updated(old(caches), group, items)
      ensures Carries(packet, group, items)
    {
      var torpBits, infoBits, numTorps, numInfos, mustSend := PackGroup(group, items);
      packet := SendPacked(group, torpBits, infoBits, numTorps, numInfos, mustSend, items);
    }

    /** Choose the layout of a packed group. */
    method SendPacked(group: nat, torpBits: bv8, infoBits: bv8, numTorps: nat, numInfos: nat, mustSend: bool,
                      ghost items: seq<Item>) returns (packet: seq<bv8>)
      requires Valid() && group < GROUPS
      requires PackedGroup(buffer[..], tinfo[..], torpBits, infoBits, numTorps, numInfos, mustSend, items)
      modifies buffer
      ensures Carries(packet, group, items)
    {
      WhatIsSent(buffer[..], tinfo[..], torpBits, infoBits, numTorps, numInfos, mustSend, items);
      packet := [];
      if infoBits != 0 {
        packet := WithInfo(group, torpBits, infoBits, numTorps, numInfos, mustSend, items);
      } else if torpBits != 0 && numTorps == 8 {
        packet := AllEight(group, torpBits, infoBits, numTorps, numInfos, mustSend, items);
      } else if torpBits != 0 {
        TablesMatchFormat(numTorps);
        packet := WithoutInfo(group, torpBits, infoBits, numTorps, numInfos, mustSend, items, VTSIZE[numTorps]);
      } else if mustSend {
        packet := WithoutInfo(group, torpBits, infoBits, numTorps, numInfos, mustSend, items, 4);
      }
    }

    /** Write the header of an SP_S_TORP_INFO packet and take its first `size` bytes. */
    method Headed(torpBits: bv8, group: bv8, infoBits: bv8, size: nat) returns (packet: seq<bv8>)
      requires Valid() && 4 <= size <= 40
      modifies buffer
      ensures packet == [SP_S_TORP_INFO, torpBits, group, infoBits] + old(buffer[4..size])
    {
      buffer[0], buffer[1], buffer[2], buffer[3] := SP_S_TORP_INFO, torpBits, group, infoBits;
      packet := buffer[..size];
    }

    /** Copy the info bytes behind the coordinates. */
    method CopyInfos(base: nat, numInfos: nat)
      requires Valid() && base + numInfos <= 40 && numInfos <= 16
      modifies buffer
      ensures buffer[..base] == old(buffer[..base]) && buffer[base..base + numInfos] == tinfo[..numInfos]
    {
      for i := 0 to numInfos
        invariant buffer[..base] == old(buffer[..base])
        invariant buffer[base..base + i] == tinfo[..i]
      {
        buffer[base + i] := tinfo[i];
      }
    }

    /** Put the info bytes behind the coordinates, and the header before them. */
    method Assemble(torpBits: bv8, group: bv8, infoBits: bv8, base: nat, numInfos: nat) returns (packet: seq<bv8>)
      requires Valid() && 4 <= base && numInfos <= 16 && base + numInfos <= 36
      modifies buffer
      ensures |packet| == RoundUp4(base + numInfos) && packet[..4] == [SP_S_TORP_INFO, torpBits, group, infoBits]
      ensures packet[4..base + numInfos] == old(buffer[..])[4..base] + tinfo[..numInfos]
    {
      CopyInfos(base, numInfos);
      ghost var copied := buffer[..];
      var size := base + numInfos;
      if size % 4 != 0 {
        size := size + 4 - size % 4;
      }
      Padded(base + numInfos);
      packet := Headed(torpBits, group, infoBits, size);
      Assembled(old(buffer[..]), copied, tinfo[..numInfos], [SP_S_TORP_INFO, torpBits, group, infoBits], base, size, packet);
    }

    /** SP_S_TORP_INFO: the info bytes are copied behind the coordinates. */
    method WithInfo(group: nat, torpBits: bv8, infoBits: bv8, numTorps: nat, numInfos: nat, mustSend: bool,
                    ghost items: seq<Item>) returns (packet: seq<bv8>)
      requires Valid() && group < GROUPS
      requires PackedGroup(buffer[..], tinfo[..], torpBits, infoBits, numTorps, numInfos, mustSend, items)
      modifies buffer
      ensures packet != [] && packet[0] == SP_S_TORP_INFO
      ensures Decode(packet) == Some(Decoded(group as bv8, Coords(items), InfoBytes(items)))
    {
      TablesMatchFormat(numTorps);
      ghost var before := buffer[..];
      var base := 4 + VTDATA[numTorps];
      packet := Assemble(torpBits, group as bv8, infoBits, base, numInfos);
      assert packet[0] == packet[..4][0];
      InfoPacketDecodes(before, tinfo[..], torpBits, infoBits, numTorps, numInfos, mustSend, items, group, packet, base);
    }

    /** SP_S_TORP; also used, with an empty bitset, when torpedoes are only gone. */
    method WithoutInfo(group: nat, torpBits: bv8, infoBits: bv8, numTorps: nat, numInfos: nat, mustSend: bool,
                       ghost items: seq<Item>, size: nat) returns (packet: seq<bv8>)
      requires Valid() && group < GROUPS && infoBits == 0
      requires PackedGroup(buffer[..], tinfo[..], torpBits, infoBits, numTorps, numInfos, mustSend, items)
      requires size == RoundUp4(3 + StreamLength(numTorps))
      modifies buffer
      ensures packet != [] && packet[0] == SP_S_TORP
      ensures Decode(packet) == Some(Decoded(group as bv8, Coords(items), InfoBytes(items)))
    {
      ghost var before := buffer[..];
      packet := HeadedShort(torpBits, group as bv8, size, StreamLength(numTorps));
      assert packet[0] == packet[..3][0];
      TorpPacketDecodes(before, tinfo[..], torpBits, infoBits, numTorps, numInfos, mustSend, items, group, packet);
    }

    /** Write the header of an SP_S_TORP packet, one byte later, and take its first `size` bytes. */
    method HeadedShort(torpBits: bv8, group: bv8, size: nat, data: nat) returns (packet: seq<bv8>)
      requires Valid() && 3 + data <= size <= 39
      modifies buffer
      ensures |packet| == size && packet[..3] == [SP_S_TORP, torpBits, group]
      ensures packet[3..3 + data] == old(buffer[..])[4..4 + data]
    {
      ghost var before := buffer[..];
      buffer[1], buffer[2], buffer[3] := SP_S_TORP, torpBits, group;
      packet := buffer[1..1 + size];
      assert buffer[..][4..] == before[4..];
      Headless(buffer[..], before, size, data);
    }

    /** SP_S_8_TORP: no bitset is needed when all eight are there. */
    method AllEight(group: nat, torpBits: bv8, infoBits: bv8, numTorps: nat, numInfos: nat, mustSend: bool,
                    ghost items: seq<Item>) returns (packet: seq<bv8>)
      requires Valid() && group < GROUPS && infoBits == 0 && numTorps == 8
      requires PackedGroup(buffer[..], tinfo[..], torpBits, infoBits, numTorps, numInfos, mustSend, items)
      modifies buffer
      ensures packet != [] && packet[0] == SP_S_8_TORP
      ensures Decode(packet) == Some(Decoded(group as bv8, Coords(items), InfoBytes(items)))
    {
      ghost var before := buffer[..];
      packet := HeadedEight(group as bv8);
      NoInfos(infoBits, items);
      EightPacketDecodes(before, Coords(items), group, packet);
    }

    /** Write the header of an SP_S_8_TORP packet, two bytes later, and take its twenty bytes. */
    method HeadedEight(group: bv8) returns (packet: seq<bv8>)
      requires Valid()
      modifies buffer
      ensures |packet| == 20 && packet[0] == SP_S_8_TORP && packet[1] == group
      ensures packet[2..20] == old(buffer[..])[4..22]
    {
      buffer[2], buffer[3] := SP_S_8_TORP, group;
      packet := buffer[2..22];
      assert packet[2..20] == buffer[4..22];
    }
  }

  /** The packets and the new caches of an update, in terms of the torpedoes. */
  lemma {:induction false} UpdateSays(torps: seq<Torp>, v: Viewer, caches: seq<Cache>, packets: seq<seq<bv8>>, caches': seq<Cache>)
    requires |torps| == |caches| == |caches'| == 8 * GROUPS && |packets| == GROUPS
    requires forall g: nat :: g < GROUPS ==> Carries(packets[g], g, Items(torps, v, caches, g))
    requires forall k :: 0 <= k < 8 * GROUPS ==> caches'[k] == Select(torps[k], v, caches[k]).cache
    ensures AllStatuses(torps) ==>
              && (forall g: nat :: g < GROUPS ==> GroupSays(packets[g], g, torps, v, caches))
              && forall k :: 0 <= k < 8 * GROUPS ==> Notes(caches'[k], torps[k], v, caches[k])
  {
    if AllStatuses(torps) {
      forall g: nat | g < GROUPS ensures GroupSays(packets[g], g, torps, v, caches) {
        UpdateSaysExactly(torps, v, caches, g, packets[g]);
      }
      forall k | 0 <= k < 8 * GROUPS ensures Notes(caches'[k], torps[k], v, caches[k]) {
        UpdateNotesExactly(torps, v, caches, k, caches'[k]);
      }
    }
  }
}
