/** Short torpedo packets (ntserv/genspkt.c, SupdateTorps; format in docs/README.SHORT).

    Eight torpedoes at a time are encoded for one viewer: a bitset of the torpedoes whose
    position is sent, a stream of nine-bit pixel coordinates, and one byte for each
    torpedo whose status or war mask is sent. */
module TorpPacket {
  import opened BitStream

  const SCALE: int := 40
  const WINSIDE: int := 500
  const VIEW: int := SCALE * WINSIDE / 2
  const CLIPPED: int := 501
  const GROUPS: nat := 32  // MAXPLAYER * MAXTORP / 8

  const SP_S_TORP: bv8 := 47
  const SP_S_TORP_INFO: bv8 := 48
  const SP_S_8_TORP: bv8 := 49

  const TFREE: bv8 := 0
  const TMOVE: bv8 := 1
  const TEXPLODE: bv8 := 2

  datatype Torp = Torp(owner: int, x: int, y: int, dir: int, status: bv8, war: bv8, gspeed: int)

  /** What was last sent to this client about a torpedo. */
  datatype Cache = Cache(war: bv8, status: bv8, x: int, y: int, dir: int)

  datatype Viewer = Viewer(no: int, x: int, y: int, team: bv8, fullResolution: bool)

  /** What one torpedo contributes: the new cache, an info byte, a coordinate pair, and
      whether the client must be told it is gone. */
  datatype Item = Item(cache: Cache, info: Option<bv8>, coord: Option<(bv16, bv16)>, gone: bool)

  /** C's division truncates toward zero. */
  function Quotient(a: int, b: int): int
    requires b > 0
  {
    if a >= 0 then a / b else -((-a) / b)
  }

  function Pixel(torp: int, me: int): int {
    Quotient(torp, SCALE) - Quotient(me, SCALE) + WINSIDE / 2
  }

  function InfoByte(war: bv8, status: bv8): bv8 {
    (war & 0x0f) | (status << 4)
  }

  predicate InView(t: Torp, v: Viewer) {
    -VIEW <= t.x - v.x <= VIEW && -VIEW <= t.y - v.y <= VIEW
  }

  /** The pixel offset on one axis of a torpedo in view, or the code for "clipped". */
  function Axis(torp: int, me: int, inView: bool): (r: int)
    requires inView ==> -VIEW <= torp - me <= VIEW
    ensures 0 <= r < 512
    ensures if inView then r == Pixel(torp, me) <= WINSIDE else r == CLIPPED
  {
    if inView then QuotientGap(torp, me); Pixel(torp, me) else CLIPPED
  }

  function Coordinates(t: Torp, v: Viewer): (bv16, bv16) {
    (Axis(t.x, v.x, InView(t, v)) as bv16, Axis(t.y, v.y, InView(t, v)) as bv16)
  }

  /** Send the position if it changed, or if the torpedo is in flight but stationary. */
  function Position(t: Torp, v: Viewer, c: Cache, info: Option<bv8>): Item {
    if c.x != t.x || c.y != t.y || (t.gspeed == 0 && t.status != TFREE) then
      Item(c.(x := t.x, y := t.y, dir := t.dir), info, Some(Coordinates(t, v)), false)
    else
      Item(c, info, None, false)
  }

  /** Send an info byte unless only the status changed and it is now TMOVE. */
  function Changed(t: Torp, v: Viewer, c: Cache, war: bv8): Item {
    if war == c.war && t.status == c.status then Position(t, v, c, None)
    else if war == c.war && t.status == TMOVE then Position(t, v, c.(status := TMOVE), None)
    else Position(t, v, c.(war := war, status := t.status), Some(InfoByte(war, t.status)))
  }

  function Select(t: Torp, v: Viewer, c: Cache): Item {
    if t.owner == v.no then
      if v.fullResolution then Item(c, None, None, false)
      else if t.war == c.war && t.status == TFREE && c.status != TFREE then
        Item(c.(status := TFREE, x := t.x, y := t.y, dir := t.dir),
             if c.status == TEXPLODE then Some(InfoByte(c.war, TFREE)) else None, None, c.status != TEXPLODE)
      else Changed(t, v, c, t.war)
    else if !InView(t, v) || t.status == TFREE then
      if t.status == TFREE && c.status == TEXPLODE then Item(c.(status := TFREE), None, None, false)
      else Item(c.(status := TFREE), None, None, c.status != TFREE)
    else Changed(t, v, c, t.war & v.team)
  }

  // ---- Every coordinate fits in nine bits ----

  lemma {:induction false} QuotientGap(a: int, b: int)
    requires -VIEW <= a - b <= VIEW
    ensures -(WINSIDE / 2) <= Quotient(a, SCALE) - Quotient(b, SCALE) <= WINSIDE / 2
  {
  }

  /** In view: 0 to 500, which is one more than the 0-499 of the documentation.  Out of view:
      501.  So 501 is never a pixel, and the nine bits sent are exactly these numbers. */
  lemma {:induction false} CoordinatesFitNineBits(t: Torp, v: Viewer)
    ensures var (x, y) := Coordinates(t, v);
            && x < 512 && y < 512
            && (InView(t, v) ==> 0 <= Pixel(t.x, v.x) <= WINSIDE && x as int == Pixel(t.x, v.x))
            && (InView(t, v) ==> 0 <= Pixel(t.y, v.y) <= WINSIDE && y as int == Pixel(t.y, v.y))
            && (!InView(t, v) ==> x as int == CLIPPED && y as int == CLIPPED)
  {
    IntBits(Axis(t.x, v.x, InView(t, v)));
    IntBits(Axis(t.y, v.y, InView(t, v)));
  }

  /** How far the pixel sent is from the true offset, in galaxy units. */
  function PixelError(torp: int, me: int): int {
    SCALE * (Pixel(torp, me) - WINSIDE / 2) - (torp - me)
  }

  predicate SameSign(a: int, b: int) {
    (a >= 0 && b >= 0) || (a <= 0 && b <= 0)
  }

  /** Truncation loses less than one pixel between positions on the same side of zero, and
      less than two otherwise, which is as far as it can go. */
  lemma {:induction false} PixelIsAccurate(torp: int, me: int)
    ensures SameSign(torp, me) ==> -SCALE < PixelError(torp, me) < SCALE
    ensures -2 * SCALE < PixelError(torp, me) < 2 * SCALE
    ensures PixelError(1 - SCALE, SCALE - 1) == 2 * SCALE - 2
  {
    Truncated(torp);
    Truncated(me);
  }

  lemma {:induction false} Truncated(a: int)
    ensures a >= 0 ==> a - SCALE < SCALE * Quotient(a, SCALE) <= a
    ensures a <= 0 ==> a <= SCALE * Quotient(a, SCALE) < a + SCALE
  {
  }

  // ---- Bits ----

  /** The mask 01 << i. */
  function Mask(i: nat): bv8
    requires i < 8
  {
    if i == 0 then 1 else if i == 1 then 2 else if i == 2 then 4 else if i == 3 then 8
    else if i == 4 then 16 else if i == 5 then 32 else if i == 6 then 64 else 128
  }

  function Bits(set8: bv8): (flags: seq<bool>)
    ensures |flags| == 8
  {
    seq(8, k requires 0 <= k < 8 => set8 & Mask(k) != 0)
  }

  lemma {:induction false} SetBit(set8: bv8, i: nat)
    requires i < 8
    ensures Bits(set8 | Mask(i)) == Bits(set8)[i := true]
  {
    forall k | 0 <= k < 8
      ensures (set8 | Mask(i)) & Mask(k) != 0 <==> set8 & Mask(k) != 0 || i == k
    {
    }
  }

  /** v << s and v >> s, with the shift count made a constant in each case. */
  function Left(v: bv16, s: nat): bv16 {
    if s == 0 then v else if s == 1 then v << 1 else if s == 2 then v << 2 else if s == 3 then v << 3
    else if s == 4 then v << 4 else if s == 5 then v << 5 else if s == 6 then v << 6 else v << 7
  }

  function Right(v: bv16, s: nat): bv16 {
    if s == 0 then v else if s == 1 then v >> 1 else if s == 2 then v >> 2 else if s == 3 then v >> 3
    else if s == 4 then v >> 4 else if s == 5 then v >> 5 else if s == 6 then v >> 6 else v >> 7
  }

  function Low(v: bv16, shift: nat): bv8 {
    (Left(v, shift) & 255) as bv8
  }

  function High(v: bv16, shift: nat): bv8 {
    (Left(v, shift) >> 8) as bv8
  }

  /** Nine bits that start `r` (0 to 7) bits into the byte pair (a, b), lowest bits first. */
  function NineBits(a: bv8, b: bv8, r: nat): bv16 {
    Right((a as bv16) | ((b as bv16) << 8), r) & 511
  }

  /** The two bytes written hold the shifted value. */
  lemma {:induction false} Rejoined(b: bv8, v: bv16, s: nat)
    requires s < 8
    ensures ((b | Low(v, s)) as bv16) | ((High(v, s) as bv16) << 8) == (b as bv16) | Left(v, s)
  {
  }

  lemma {:induction false} ShiftedBack(b: bv16, v: bv16, s: nat)
    requires s < 8 && v < 512 && Right(b, s) == 0
    ensures Right(b | Left(v, s), s) & 511 == v
  {
  }

  /** A value written over a byte whose upper bits are clear reads back unchanged. */
  lemma {:induction false} WrittenReadsBack(b: bv8, v: bv16, s: nat)
    requires s < 8 && v < 512 && Right(b as bv16, s) == 0
    ensures NineBits(b | Low(v, s), High(v, s), s) == v
  {
    Rejoined(b, v, s);
    ShiftedBack(b as bv16, v, s);
  }

  /** The byte after it is clear above the bits just written. */
  lemma {:induction false} RestIsClear(v: bv16, s: nat)
    requires s < 7 && v < 512
    ensures Right(High(v, s) as bv16, s + 1) == 0
  {
  }

  /** Writing the next value leaves the previous one readable. */
  lemma {:induction false} EarlierReadsBack(a: bv8, b: bv8, v: bv16, r: nat)
    requires r < 7 && v < 512
    ensures NineBits(a, b | Low(v, r + 1), r) == NineBits(a, b, r)
  {
  }

  lemma {:induction false} IntBits(x: int)
    requires 0 <= x < 512
    ensures (x as bv16) as int == x
    ensures x as bv16 < 512
  {
  }

  // ---- The decoder, from the documentation ----

  /** What a client reads out of a packet about torpedoes 8 * group .. 8 * group + 7. */
  datatype Decoded = Decoded(group: bv8, coords: seq<Option<(bv16, bv16)>>, infos: seq<Option<bv8>>)

  const ALL: seq<bool> := seq(8, _ => true)

  function Decode(packet: seq<bv8>): Option<Decoded> {
    if |packet| >= 3 && packet[0] == SP_S_TORP then
      var coords := Bits(packet[1]);
      if |packet| != RoundUp4(3 + StreamLength(Rank(coords, |coords|))) then None
      else Some(Decoded(packet[2], DecodeCoords(NineBits, packet, 3, coords), seq(8, _ => None)))
    else if |packet| >= 4 && packet[0] == SP_S_TORP_INFO then
      var coords, infos := Bits(packet[1]), Bits(packet[3]);
      var n := StreamLength(Rank(coords, |coords|));
      if |packet| != RoundUp4(4 + n + Rank(infos, |infos|)) then None
      else Some(Decoded(packet[2], DecodeCoords(NineBits, packet, 4, coords), DecodeInfos(packet, 4 + n, infos)))
    else if |packet| == 20 && packet[0] == SP_S_8_TORP then
      Some(Decoded(packet[1], DecodeCoords(NineBits, packet, 2, ALL), seq(8, _ => None)))
    else None
  }

  // ---- The packer ----

  /** `values` have been written from byte 4 on, and the next one goes to byte `at`, `shift`
      bits in. */
  ghost predicate Packed(bytes: seq<bv8>, at: nat, shift: nat, values: seq<bv16>) {
    && |bytes| == 40 && |values| <= 16 && shift <= 8 && 4 <= at
    && 8 * (at - 4) + shift == 9 * |values|
    && (shift < 8 ==> Right(bytes[at] as bv16, shift) == 0)
    && Holds(NineBits, bytes, 4, values)
  }

  /** The bytes after `v` has been written at the cursor. */
  ghost function Written(bytes: seq<bv8>, at: nat, shift: nat, v: bv16): seq<bv8>
    requires at + 1 < |bytes| && shift < 8
  {
    bytes[at := bytes[at] | Low(v, shift)][at + 1 := High(v, shift)]
  }

  /** Earlier numbers end before the cursor; only the last one can share its byte. */
  lemma {:induction false} EarlierIsBehind(at: nat, shift: nat, n: nat, k: nat)
    requires 4 <= at && shift < 8 && 8 * (at - 4) + shift == 9 * n && k < n
    ensures 4 + 9 * k / 8 < at
    ensures 4 + 9 * k / 8 + 1 == at ==> shift > 0 && 9 * k % 8 == shift - 1
  {
  }

  lemma {:induction false} PackKeepsEarlier(bytes: seq<bv8>, at: nat, shift: nat, n: nat, v: bv16, k: nat)
    requires 4 <= at && shift < 8 && 8 * (at - 4) + shift == 9 * n && k < n <= 16 && |bytes| == 40 && v < 512
    ensures Field(NineBits, Written(bytes, at, shift, v), 4, k) == Field(NineBits, bytes, 4, k)
  {
    EarlierIsBehind(at, shift, n, k);
    WrittenBehind(bytes, at, shift, v, 4 + 9 * k / 8, 9 * k % 8);
  }

  /** Nine bits that start before the cursor, and in its byte at most up to `shift`, stay. */
  lemma {:induction false} WrittenBehind(bytes: seq<bv8>, at: nat, shift: nat, v: bv16, q: nat, r: nat)
    requires at + 1 < |bytes| && shift < 8 && v < 512 && q < at
    requires q + 1 == at ==> shift > 0 && r == shift - 1
    ensures var bytes' := Written(bytes, at, shift, v);
            NineBits(bytes'[q], bytes'[q + 1], r) == NineBits(bytes[q], bytes[q + 1], r)
  {
    if q + 1 == at {
      EarlierReadsBack(bytes[q], bytes[at], v, shift - 1);
    }
  }

  lemma {:induction false} PackOne(bytes: seq<bv8>, at: nat, shift: nat, values: seq<bv16>, v: bv16)
    requires Packed(bytes, at, shift, values) && shift < 8 && |values| < 16 && v < 512
    ensures Packed(Written(bytes, at, shift, v), at + 1, shift + 1, values + [v])
  {
    var bytes' := Written(bytes, at, shift, v);
    assert 9 * |values| / 8 == at - 4 && 9 * |values| % 8 == shift;
    WrittenReadsBack(bytes[at], v, shift);
    forall k | 0 <= k < |values| + 1
      ensures Field(NineBits, bytes', 4, k) == (values + [v])[k]
    {
      if k < |values| {
        PackKeepsEarlier(bytes, at, shift, |values|, v, k);
      }
    }
    if shift < 7 { RestIsClear(v, shift); }
  }

  lemma {:induction false} OneByOne(values: seq<bv16>, x: bv16, y: bv16)
    ensures values + [x] + [y] == values + [x, y]
  {
  }

  // ---- The tables ----

  /** The hand-written tables `vtdata` and `vtsize`. */
  const VTDATA: seq<nat> := [0, 3, 5, 7, 9, 12, 14, 16, 18]
  const VTSIZE: seq<nat> := [4, 8, 8, 12, 12, 16, 20, 20, 24]

  /** The tables are what the format prescribes: 18 bits for each torpedo rounded up to bytes,
      and a three-byte header plus that, rounded up to four. */
  lemma {:induction false} TablesMatchFormat(n: nat)
    requires n <= 8
    ensures VTDATA[n] == StreamLength(n)
    ensures VTSIZE[n] == RoundUp4(3 + VTDATA[n])
  {
    assert VTDATA == [0, 3, 5, 7, 9, 12, 14, 16, 18];
    assert VTSIZE == [4, 8, 8, 12, 12, 16, 20, 20, 24];
  }

  // ---- What a group contributes ----

  /** The first bits of `set8` are these flags, and the others are clear. */
  ghost predicate Marked(set8: bv8, flags: seq<bool>) {
    |flags| <= 8 && Bits(set8) == flags + seq(8 - |flags|, _ => false)
  }

  lemma {:induction false} MarkedNext(set8: bv8, flags: seq<bool>, flag: bool)
    requires Marked(set8, flags) && |flags| < 8
    ensures Marked(if flag then set8 | Mask(|flags|) else set8, flags + [flag])
  {
    SetBit(set8, |flags|);
  }

  lemma {:induction false} NothingMarked()
    ensures Marked(0, [])
  {
    forall k | 0 <= k < 8
      ensures !Bits(0)[k]
    {
      assert 0 & Mask(k) == 0;
    }
  }

  /** What the eight torpedoes of a group contribute, each from its own cache entry. */
  function Items(torps: seq<Torp>, v: Viewer, caches: seq<Cache>, group: nat): (items: seq<Item>)
    requires |torps| == |caches| == 8 * GROUPS && group < GROUPS
    ensures |items| == 8
  {
    seq(8, k requires 0 <= k < 8 => Select(torps[8 * group + k], v, caches[8 * group + k]))
  }

  ghost function Coords(items: seq<Item>): seq<Option<(bv16, bv16)>> {
    seq(|items|, k requires 0 <= k < |items| => items[k].coord)
  }

  ghost function InfoBytes(items: seq<Item>): seq<Option<bv8>> {
    seq(|items|, k requires 0 <= k < |items| => items[k].info)
  }

  /** Some torpedo must be reported as gone, by its absence from the bitset. */
  ghost predicate AnyGone(items: seq<Item>) {
    items != [] && (AnyGone(items[..|items| - 1]) || items[|items| - 1].gone)
  }

  ghost predicate Silent(items: seq<Item>) {
    (forall k :: 0 <= k < |items| ==> items[k].coord.None? && items[k].info.None?) && !AnyGone(items)
  }

  ghost predicate AnyInfo(items: seq<Item>) {
    exists k :: 0 <= k < |items| && items[k].info.Some?
  }

  ghost predicate AllPlaced(items: seq<Item>) {
    forall k :: 0 <= k < |items| ==> items[k].coord.Some?
  }

  /** The layout that items with something to say call for. */
  ghost function Layout(items: seq<Item>): bv8 {
    if AnyInfo(items) then SP_S_TORP_INFO else if AllPlaced(items) then SP_S_8_TORP else SP_S_TORP
  }

  /** The packet for a group carries exactly its items, in the layout they call for; none is
      sent when there is nothing to say. */
  ghost predicate Carries(packet: seq<bv8>, group: nat, items: seq<Item>)
    requires group < GROUPS
  {
    && (packet == [] <==> Silent(items))
    && (packet != [] ==> packet[0] == Layout(items))
    && (packet != [] ==> Decode(packet) == Some(Decoded(group as bv8, Coords(items), InfoBytes(items))))
  }

  // ---- Facts about a packed group ----

  /** The caches after some leading torpedoes of a group have been dealt with. */
  ghost function Updated(caches: seq<Cache>, group: nat, items: seq<Item>): (r: seq<Cache>)
    ensures |r| == |caches|
  {
    seq(|caches|, k requires 0 <= k < |caches| =>
      if 8 * group <= k < 8 * group + |items| then items[k - 8 * group].cache else caches[k])
  }

  /** The caches after the first `n` groups have been dealt with. */
  ghost function UpTo(torps: seq<Torp>, v: Viewer, caches: seq<Cache>, n: nat): (r: seq<Cache>)
    requires |torps| == |caches| == 8 * GROUPS && n <= GROUPS
    ensures |r| == |caches|
  {
    seq(|caches|, k requires 0 <= k < |caches| => if k < 8 * n then Select(torps[k], v, caches[k]).cache else caches[k])
  }

  /** A group reads and writes only its own cache entries. */
  lemma {:induction false} SameItems(torps: seq<Torp>, v: Viewer, caches: seq<Cache>, group: nat)
    requires |torps| == |caches| == 8 * GROUPS && group < GROUPS
    ensures Items(torps, v, UpTo(torps, v, caches, group), group) == Items(torps, v, caches, group)
    ensures Updated(UpTo(torps, v, caches, group), group, Items(torps, v, caches, group)) == UpTo(torps, v, caches, group + 1)
  {
  }

  /** The buffers and counts at the end of the inner loop. */
  ghost predicate PackedGroup(bytes: seq<bv8>, tinfo: seq<bv8>, torpBits: bv8, infoBits: bv8,
                              numTorps: nat, numInfos: nat, mustSend: bool, items: seq<Item>)
  {
    var coords, infos := Coords(items), InfoBytes(items);
    && |items| == 8 && |bytes| == 40 && |tinfo| == 16
    && Bits(torpBits) == Flags(coords) && Bits(infoBits) == Flags(infos)
    && Agrees(coords, Flags(coords), Numbers(coords))
    && Holds(NineBits, bytes, 4, Numbers(coords))
    && numTorps == Rank(Flags(coords), |coords|) <= 8
    && numInfos == |Present(infos)| == Rank(Flags(infos), |infos|) <= 8
    && tinfo[..numInfos] == Present(infos)
    && mustSend == AnyGone(items)
  }

  /** The same, part-way through the inner loop. */
  ghost predicate CoordProgress(bytes: seq<bv8>, at: nat, shift: nat, torpBits: bv8, numTorps: nat,
                                coords: seq<Option<(bv16, bv16)>>)
  {
    && |coords| <= 8
    && Packed(bytes, at, shift, Numbers(coords)) && shift < 8 && shift % 2 == 0
    && |Numbers(coords)| == 2 * numTorps && numTorps <= |coords|
    && Marked(torpBits, Flags(coords))
  }

  ghost predicate InfoProgress(tinfo: seq<bv8>, infoBits: bv8, numInfos: nat, infos: seq<Option<bv8>>) {
    && |infos| <= 8 && |tinfo| == 16
    && Marked(infoBits, Flags(infos))
    && numInfos <= |infos| && tinfo[..numInfos] == Present(infos)
  }

  lemma {:induction false} NothingPacked(bytes: seq<bv8>, tinfo: seq<bv8>, items: seq<Item>, caches: seq<Cache>, group: nat)
    requires |bytes| == 40 && |tinfo| == 16 && bytes[4] == 0 && items == []
    ensures CoordProgress(bytes, 4, 0, 0, 0, Coords(items))
    ensures InfoProgress(tinfo, 0, 0, InfoBytes(items))
    ensures Updated(caches, group, items) == caches && !AnyGone(items)
  {
    NothingMarked();
    assert Flags(Coords(items)) == [] && Flags(InfoBytes(items)) == [];
  }

  lemma {:induction false} PrefixStep(items: seq<Item>, i: nat, caches: seq<Cache>, group: nat)
    requires i < |items| == 8 && |caches| == 8 * GROUPS && group < GROUPS
    ensures Coords(items[..i + 1]) == Coords(items[..i]) + [items[i].coord]
    ensures AnyGone(items[..i + 1]) == (AnyGone(items[..i]) || items[i].gone)
    ensures InfoBytes(items[..i + 1]) == InfoBytes(items[..i]) + [items[i].info]
    ensures Updated(caches, group, items[..i + 1]) == Updated(caches, group, items[..i])[8 * group + i := items[i].cache]
  {
    assert items[..i + 1][..i] == items[..i];
  }

  lemma {:induction false} ProgressDone(bytes: seq<bv8>, tinfo: seq<bv8>, at: nat, shift: nat, torpBits: bv8, infoBits: bv8,
                     numTorps: nat, numInfos: nat, mustSend: bool, items: seq<Item>)
    requires |items| == 8
    requires CoordProgress(bytes, at, shift, torpBits, numTorps, Coords(items))
    requires InfoProgress(tinfo, infoBits, numInfos, InfoBytes(items))
    requires mustSend == AnyGone(items)
    ensures PackedGroup(bytes, tinfo, torpBits, infoBits, numTorps, numInfos, mustSend, items)
  {
    NumbersAgree(Coords(items));
    PresentAt(InfoBytes(items), 8);
    assert Bits(torpBits) == Flags(Coords(items));
    assert Bits(infoBits) == Flags(InfoBytes(items));
  }

  lemma {:induction false} NumbersAppend<V>(coords: seq<Option<(V, V)>>, coord: Option<(V, V)>)
    ensures Numbers(coords + [coord]) ==
            Numbers(coords) + if coord.Some? then [coord.value.0, coord.value.1] else []
  {
    assert (coords + [coord])[..|coords|] == coords;
  }

  lemma {:induction false} PresentAppend<T>(infos: seq<Option<T>>, info: Option<T>)
    ensures Present(infos + [info]) == Present(infos) + if info.Some? then [info.value] else []
  {
    assert (infos + [info])[..|infos|] == infos;
  }

  ghost predicate FitsNineBits(coord: Option<(bv16, bv16)>) {
    coord.Some? ==> coord.value.0 < 512 && coord.value.1 < 512
  }

  /** Whatever is sent for a torpedo is where it is, in nine-bit coordinates. */
  lemma {:induction false} SelectedFitsNineBits(t: Torp, v: Viewer, c: Cache)
    ensures FitsNineBits(Select(t, v, c).coord)
    ensures Select(t, v, c).coord.Some? ==> Select(t, v, c).coord.value == Coordinates(t, v)
  {
    CoordinatesFitNineBits(t, v);
  }

  /** A four-byte header, the coordinates and the info bytes, in that order. */
  lemma {:induction false} Assembled(before: seq<bv8>, copied: seq<bv8>, infos: seq<bv8>, header: seq<bv8>,
                                     base: nat, size: nat, packet: seq<bv8>)
    requires |before| == |copied| == 40 && |header| == 4 <= base && base + |infos| <= size <= 40
    requires copied[..base] == before[..base] && copied[base..base + |infos|] == infos
    requires packet == header + copied[4..size]
    ensures |packet| == size && packet[..4] == header
    ensures packet[4..base + |infos|] == before[4..base] + infos
  {
    var end := base + |infos|;
    assert packet[4..] == copied[4..size];
    assert packet[4..end] == packet[4..][..end - 4];
    assert copied[4..end] == copied[4..size][..end - 4];
    assert copied[4..base] == copied[..base][4..];
    assert copied[4..end] == copied[4..base] + copied[base..end];
  }

  /** The data after a header of three bytes that starts at byte 1. */
  lemma {:induction false} Headless(bytes: seq<bv8>, before: seq<bv8>, size: nat, data: nat)
    requires |bytes| == |before| == 40 && 3 + data <= size <= 39 && bytes[4..] == before[4..]
    ensures bytes[1..1 + size][3..3 + data] == before[4..4 + data]
  {
    var packet := bytes[1..1 + size];
    forall k | 0 <= k < data
      ensures packet[3..3 + data][k] == bytes[4..][k]
    {
      assert packet[3..3 + data][k] == packet[3 + k] == bytes[4 + k];
    }
    assert packet[3..3 + data] == bytes[4..][..data];
    assert before[4..4 + data] == before[4..][..data];
  }

  /** `if (size % 4) size += 4 - size % 4` rounds up. */
  lemma {:induction false} Padded(n: nat)
    ensures RoundUp4(n) == if n % 4 != 0 then n + 4 - n % 4 else n
  {
  }

  lemma {:induction false} ItemsFitNineBits(torps: seq<Torp>, v: Viewer, caches: seq<Cache>, group: nat)
    requires |torps| == |caches| == 8 * GROUPS && group < GROUPS
    ensures forall k :: 0 <= k < 8 ==> FitsNineBits(Items(torps, v, caches, group)[k].coord)
  {
    forall k | 0 <= k < 8
      ensures FitsNineBits(Items(torps, v, caches, group)[k].coord)
    {
      SelectedFitsNineBits(torps[8 * group + k], v, caches[8 * group + k]);
    }
  }

  lemma {:induction false} ZeroBits(set8: bv8)
    ensures set8 == 0 <==> forall k :: 0 <= k < 8 ==> !Bits(set8)[k]
  {
    if set8 == 0 {
      forall k | 0 <= k < 8 ensures !Bits(set8)[k] { assert 0 & Mask(k) == 0; }
    } else {
      assert Bits(set8)[0] || Bits(set8)[1] || Bits(set8)[2] || Bits(set8)[3]
             || Bits(set8)[4] || Bits(set8)[5] || Bits(set8)[6] || Bits(set8)[7];
    }
  }

  /** What the bitsets and counts say about the items: who has an info byte, who a position,
      and whether there is anything to say. */
  lemma {:induction false} WhatIsSent(bytes: seq<bv8>, tinfo: seq<bv8>, torpBits: bv8, infoBits: bv8,
                   numTorps: nat, numInfos: nat, mustSend: bool, items: seq<Item>)
    requires PackedGroup(bytes, tinfo, torpBits, infoBits, numTorps, numInfos, mustSend, items)
    ensures Silent(items) <==> torpBits == 0 && infoBits == 0 && !mustSend
    ensures infoBits != 0 <==> AnyInfo(items)
    ensures numTorps == 8 <==> AllPlaced(items)
    ensures torpBits == 0 ==> numTorps == 0
  {
    var coords, infos := Flags(Coords(items)), Flags(InfoBytes(items));
    FlagsOfItems(items);
    InfosSent(infoBits, infos, items);
    PlacesSent(torpBits, coords, items);
    SilentWhen(coords, infos, items);
  }

  lemma {:induction false} SilentWhen(coords: seq<bool>, infos: seq<bool>, items: seq<Item>)
    requires |coords| == |infos| == |items|
    requires forall k :: 0 <= k < |items| ==> coords[k] == items[k].coord.Some? && infos[k] == items[k].info.Some?
    ensures Silent(items) <==> NoneOf(coords) && NoneOf(infos) && !AnyGone(items)
  {
  }

  predicate NoneOf(flags: seq<bool>) {
    forall k :: 0 <= k < |flags| ==> !flags[k]
  }

  lemma {:induction false} InfosSent(infoBits: bv8, infos: seq<bool>, items: seq<Item>)
    requires |infos| == |items| == 8 && Bits(infoBits) == infos
    requires forall k :: 0 <= k < |items| ==> infos[k] == items[k].info.Some?
    ensures infoBits != 0 <==> AnyInfo(items)
    ensures infoBits == 0 <==> NoneOf(infos)
  {
    ZeroBits(infoBits);
  }

  lemma {:induction false} PlacesSent(torpBits: bv8, coords: seq<bool>, items: seq<Item>)
    requires |coords| == |items| == 8 && Bits(torpBits) == coords
    requires forall k :: 0 <= k < |items| ==> coords[k] == items[k].coord.Some?
    ensures Rank(coords, 8) == 8 <==> AllPlaced(items)
    ensures torpBits == 0 <==> NoneOf(coords)
    ensures torpBits == 0 ==> Rank(coords, 8) == 0
  {
    ZeroBits(torpBits);
    RankOfAll(coords, 8);
    if torpBits == 0 { RankOfNone(coords, 8); }
  }

  lemma {:induction false} FlagsOfItems(items: seq<Item>)
    ensures |Flags(Coords(items))| == |Flags(InfoBytes(items))| == |items|
    ensures forall k :: 0 <= k < |items| ==> Flags(Coords(items))[k] == items[k].coord.Some?
    ensures forall k :: 0 <= k < |items| ==> Flags(InfoBytes(items))[k] == items[k].info.Some?
  {
  }

  lemma {:induction false} RankOfNone(flags: seq<bool>, i: nat)
    requires i <= |flags| && forall k :: 0 <= k < |flags| ==> !flags[k]
    ensures Rank(flags, i) == 0
  {
    if i > 0 { RankOfNone(flags, i - 1); }
  }

  lemma {:induction false} RankOfAll(flags: seq<bool>, i: nat)
    requires i <= |flags|
    ensures Rank(flags, i) <= i
    ensures Rank(flags, i) == i <==> forall k :: 0 <= k < i ==> flags[k]
  {
    if i > 0 { RankOfAll(flags, i - 1); }
  }

  /** No info bit means no info byte. */
  lemma {:induction false} NoInfos(infoBits: bv8, items: seq<Item>)
    requires |items| == 8 && infoBits == 0 && Bits(infoBits) == Flags(InfoBytes(items))
    ensures InfoBytes(items) == seq(8, _ => None)
  {
    ZeroBits(infoBits);
    var infos := InfoBytes(items);
    forall k | 0 <= k < 8
      ensures infos[k] == None
    {
      assert Flags(infos)[k] == infos[k].Some?;
    }
  }

  /** The coordinates and the info bytes behind them are read back. */
  lemma {:induction false} InfoPartsDecode(bytes: seq<bv8>, coords: seq<Option<(bv16, bv16)>>, infos: seq<Option<bv8>>,
                                           n: nat, packet: seq<bv8>, base: nat)
    requires Agrees(coords, Flags(coords), Numbers(coords)) && Holds(NineBits, bytes, 4, Numbers(coords))
    requires n == Rank(Flags(coords), |Flags(coords)|) && base == 4 + StreamLength(n) <= |bytes|
    requires |Present(infos)| == Rank(Flags(infos), |infos|) && base + |Present(infos)| <= |packet|
    requires packet[4..base + |Present(infos)|] == bytes[4..base] + Present(infos)
    ensures DecodeCoords(NineBits, packet, 4, Flags(coords)) == coords
    ensures DecodeInfos(packet, base, Flags(infos)) == infos
  {
    var end := base + |Present(infos)|;
    assert packet[4..base] == packet[4..end][..base - 4];
    assert packet[base..end] == packet[4..end][base - 4..];
    CoordsDecode(NineBits, bytes, 4, coords, Flags(coords), Numbers(coords), packet, 4, n);
    InfosDecode(infos, packet, base);
  }

  lemma {:induction false} HeaderReads(packet: seq<bv8>, header: seq<bv8>)
    requires |header| <= |packet| && packet[..|header|] == header
    ensures forall k :: 0 <= k < |header| ==> packet[k] == header[k]
  {
  }

  lemma {:induction false} InfoPacketDecodes(bytes: seq<bv8>, tinfo: seq<bv8>, torpBits: bv8, infoBits: bv8, numTorps: nat,
                          numInfos: nat, mustSend: bool, items: seq<Item>, group: nat, packet: seq<bv8>, base: nat)
    requires PackedGroup(bytes, tinfo, torpBits, infoBits, numTorps, numInfos, mustSend, items) && group < GROUPS
    requires base == 4 + StreamLength(numTorps) && |packet| == RoundUp4(base + numInfos)
    requires packet[..4] == [SP_S_TORP_INFO, torpBits, group as bv8, infoBits]
    requires packet[4..base + numInfos] == bytes[4..base] + tinfo[..numInfos]
    ensures Decode(packet) == Some(Decoded(group as bv8, Coords(items), InfoBytes(items)))
  {
    InfoRead(bytes, Coords(items), InfoBytes(items), numTorps, packet, base, [SP_S_TORP_INFO, torpBits, group as bv8, infoBits]);
  }

  lemma {:induction false} InfoRead(bytes: seq<bv8>, coords: seq<Option<(bv16, bv16)>>, infos: seq<Option<bv8>>,
                                    n: nat, packet: seq<bv8>, base: nat, header: seq<bv8>)
    requires Agrees(coords, Flags(coords), Numbers(coords)) && Holds(NineBits, bytes, 4, Numbers(coords))
    requires n == Rank(Flags(coords), |Flags(coords)|) && base == 4 + StreamLength(n) <= |bytes|
    requires |Present(infos)| == Rank(Flags(infos), |infos|) && |packet| == RoundUp4(base + |Present(infos)|)
    requires packet[4..base + |Present(infos)|] == bytes[4..base] + Present(infos)
    requires |header| == 4 && packet[..4] == header && header[0] == SP_S_TORP_INFO
    requires Bits(header[1]) == Flags(coords) && Bits(header[3]) == Flags(infos)
    ensures Decode(packet) == Some(Decoded(header[2], coords, infos))
  {
    HeaderReads(packet, header);
    InfoLayout(packet, Flags(coords), Flags(infos), base);
    InfoPartsDecode(bytes, coords, infos, n, packet, base);
  }

  /** What the decoder makes of an SP_S_TORP_INFO packet with these bitsets. */
  lemma {:induction false} InfoLayout(packet: seq<bv8>, coords: seq<bool>, infos: seq<bool>, base: nat)
    requires |packet| >= 4 && packet[0] == SP_S_TORP_INFO && Bits(packet[1]) == coords && Bits(packet[3]) == infos
    requires base == 4 + StreamLength(Rank(coords, |coords|)) && |packet| == RoundUp4(base + Rank(infos, |infos|))
    ensures Decode(packet)
            == Some(Decoded(packet[2], DecodeCoords(NineBits, packet, 4, coords), DecodeInfos(packet, base, infos)))
  {
  }

  lemma {:induction false} TorpPacketDecodes(bytes: seq<bv8>, tinfo: seq<bv8>, torpBits: bv8, infoBits: bv8, numTorps: nat,
                          numInfos: nat, mustSend: bool, items: seq<Item>, group: nat, packet: seq<bv8>)
    requires PackedGroup(bytes, tinfo, torpBits, infoBits, numTorps, numInfos, mustSend, items) && group < GROUPS
    requires var n := StreamLength(numTorps);
             && infoBits == 0 && |packet| == RoundUp4(3 + n)
             && packet[..3] == [SP_S_TORP, torpBits, group as bv8]
             && packet[3..3 + n] == bytes[4..4 + n]
    ensures Decode(packet) == Some(Decoded(group as bv8, Coords(items), InfoBytes(items)))
  {
    HeaderReads(packet, packet[..3]);
    CoordsDecode(NineBits, bytes, 4, Coords(items), Flags(Coords(items)), Numbers(Coords(items)), packet, 3, numTorps);
    NoInfos(infoBits, items);
  }

  lemma {:induction false} EightPacketDecodes(bytes: seq<bv8>, coords: seq<Option<(bv16, bv16)>>, group: nat, packet: seq<bv8>)
    requires |coords| == 8 && Rank(Flags(coords), 8) == 8 && group < GROUPS
    requires |bytes| == 40 && Holds(NineBits, bytes, 4, Numbers(coords)) && Agrees(coords, Flags(coords), Numbers(coords))
    requires |packet| == 20 && packet[0] == SP_S_8_TORP && packet[1] == group as bv8 && packet[2..20] == bytes[4..22]
    ensures Decode(packet) == Some(Decoded(group as bv8, coords, seq(8, _ => None)))
  {
    AllPresent(Flags(coords));
    EightLayout(packet);
    CoordsDecode(NineBits, bytes, 4, coords, ALL, Numbers(coords), packet, 2, 8);
  }

  /** What the decoder makes of an SP_S_8_TORP packet. */
  lemma {:induction false} EightLayout(packet: seq<bv8>)
    requires |packet| == 20 && packet[0] == SP_S_8_TORP
    ensures 2 + StreamLength(Rank(ALL, |ALL|)) == |packet|
    ensures Decode(packet) == Some(Decoded(packet[1], DecodeCoords(NineBits, packet, 2, ALL), seq(8, _ => None)))
  {
    RankOfAll(ALL, |ALL|);
  }

  lemma {:induction false} AllPresent(flags: seq<bool>)
    requires |flags| == 8 && Rank(flags, |flags|) == 8
    ensures flags == ALL
  {
    RankOfAll(flags, |flags|);
  }
}
