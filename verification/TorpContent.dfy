/** What an update says about each torpedo, from the torpedo, the viewer and what was last sent alone:
    whose status and position are in the packet, with which bytes and numbers, and what is noted down. */
module TorpContent {
  import opened BitStream
  import opened TorpPacket

  predicate Mine(t: Torp, v: Viewer) {
    t.owner == v.no
  }

  /** Within 10000 of the viewer on both axes. */
  predicate Near(t: Torp, v: Viewer) {
    -10000 <= t.x - v.x <= 10000 && -10000 <= t.y - v.y <= 10000
  }

  /** The viewer is told about it here: about its own torpedoes unless they are sent at full resolution
      elsewhere, and about those of others that are not free and near enough. */
  predicate Shown(t: Torp, v: Viewer) {
    if Mine(t, v) then !v.fullResolution else t.status != 0 && Near(t, v)
  }

  /** The war mask, of which others' torpedoes show the viewer's team only. */
  function MaskFor(t: Torp, v: Viewer): bv8 {
    if Mine(t, v) then t.war else t.war & v.team
  }

  /** An own torpedo has become free, and nothing else about it has changed. */
  predicate OwnFreed(t: Torp, v: Viewer, c: Cache) {
    Mine(t, v) && !v.fullResolution && t.war == c.war && t.status == 0 && c.status != 0
  }

  /** An info byte is due: the mask has changed, or the status has, to something that the bit of the
      position cannot say; 0 is free, 1 moving, 2 exploding. */
  predicate InfoDue(t: Torp, v: Viewer, c: Cache) {
    && Shown(t, v)
    && (MaskFor(t, v) != c.war || (t.status != c.status && t.status != 1 && (t.status == 0 ==> c.status == 2)))
  }

  /** A position is due: it has changed, or the torpedo stands still and is not free. */
  predicate PlaceDue(t: Torp, v: Viewer, c: Cache) {
    Shown(t, v) && !OwnFreed(t, v, c) && (c.x != t.x || c.y != t.y || (t.gspeed == 0 && t.status != 0))
  }

  /** The viewer must be told that it has gone, by an empty bit. */
  predicate GoneDue(t: Torp, v: Viewer, c: Cache) {
    if Mine(t, v) then OwnFreed(t, v, c) && c.status != 2
    else !Shown(t, v) && c.status != 0 && !(t.status == 0 && c.status == 2)
  }

  /** The upper bits are the status, the lower four the mask. */
  predicate InfoSays(b: bv8, status: bv8, mask: bv8) {
    b >> 4 == status && b & 15 == mask & 15
  }

  /** `q` is `a` in pixels of 40, cut off toward zero. */
  predicate InPixels(a: int, q: int) {
    if a >= 0 then 40 * q <= a < 40 * q + 40 else 40 * q - 40 < a <= 40 * q
  }

  /** The number for one axis: pixels from the corner of the window, or 501 for a torpedo out of view. */
  ghost predicate AxisSays(n: bv16, torp: int, me: int, near: bool) {
    if near then exists a: int, b: int :: InPixels(torp, a) && InPixels(me, b) && n as int == a - b + 250
    else n == 501
  }

  ghost predicate PlaceSays(n: (bv16, bv16), t: Torp, v: Viewer) {
    AxisSays(n.0, t.x, v.x, Near(t, v)) && AxisSays(n.1, t.y, v.y, Near(t, v))
  }

  /** What a packet says about a torpedo. */
  ghost predicate Says(info: Option<bv8>, coord: Option<(bv16, bv16)>, t: Torp, v: Viewer, c: Cache) {
    && (info.Some? <==> InfoDue(t, v, c)) && (info.Some? ==> InfoSays(info.value, t.status, MaskFor(t, v)))
    && (coord.Some? <==> PlaceDue(t, v, c)) && (coord.Some? ==> PlaceSays(coord.value, t, v))
  }

  /** What is noted down as sent. */
  predicate Notes(c': Cache, t: Torp, v: Viewer, c: Cache) {
    && c'.war == (if Shown(t, v) then MaskFor(t, v) else c.war)
    && c'.status == (if Shown(t, v) then t.status else if Mine(t, v) then c.status else 0)
    && if PlaceDue(t, v, c) || OwnFreed(t, v, c) then c'.x == t.x && c'.y == t.y && c'.dir == t.dir
       else c'.x == c.x && c'.y == c.y && c'.dir == c.dir
  }

  // ---- One torpedo ----

  lemma {:induction false} InfoByteSays(war: bv8, status: bv8)
    requires status < 16
    ensures InfoSays(InfoByte(war, status), status, war)
  {
  }

  lemma {:induction false} AxisIs(torp: int, me: int, near: bool)
    requires near ==> -VIEW <= torp - me <= VIEW
    ensures AxisSays(Axis(torp, me, near) as bv16, torp, me, near)
  {
    IntBits(Axis(torp, me, near));
    if near {
      var a, b := Quotient(torp, SCALE), Quotient(me, SCALE);
      Truncated(torp);
      Truncated(me);
      assert InPixels(torp, a) && InPixels(me, b);
    }
  }

  lemma {:induction false} PlaceIs(t: Torp, v: Viewer)
    ensures PlaceSays(Coordinates(t, v), t, v)
  {
    AxisIs(t.x, v.x, InView(t, v));
    AxisIs(t.y, v.y, InView(t, v));
  }

  /** A torpedo that is shown, changed or not. */
  lemma {:induction false} ChangedSays(t: Torp, v: Viewer, c: Cache)
    requires t.status < 16 && Shown(t, v) && !OwnFreed(t, v, c)
    ensures var item := Changed(t, v, c, MaskFor(t, v));
            Says(item.info, item.coord, t, v, c) && Notes(item.cache, t, v, c) && !item.gone
  {
    ChangedIs(t, v, c);
    if InfoDue(t, v, c) { InfoByteSays(MaskFor(t, v), t.status); }
    if PlaceDue(t, v, c) { PlaceIs(t, v); }
  }

  lemma {:induction false} ChangedIs(t: Torp, v: Viewer, c: Cache)
    requires Shown(t, v) && !OwnFreed(t, v, c)
    ensures var item := Changed(t, v, c, MaskFor(t, v));
            && item.info == (if InfoDue(t, v, c) then Some(InfoByte(MaskFor(t, v), t.status)) else None)
            && item.coord == (if PlaceDue(t, v, c) then Some(Coordinates(t, v)) else None)
            && Notes(item.cache, t, v, c) && !item.gone
  {
  }

  lemma {:induction false} SelectSays(t: Torp, v: Viewer, c: Cache)
    requires t.status < 16
    ensures var item := Select(t, v, c);
            && Says(item.info, item.coord, t, v, c) && Notes(item.cache, t, v, c)
            && item.gone == GoneDue(t, v, c)
  {
    if OwnFreed(t, v, c) {
      InfoByteSays(c.war, TFREE);
    } else if Shown(t, v) {
      ChangedSays(t, v, c);
    }
  }

  // ---- A whole update ----

  /** There is something to say about the torpedo. */
  predicate Due(t: Torp, v: Viewer, c: Cache) {
    InfoDue(t, v, c) || PlaceDue(t, v, c) || GoneDue(t, v, c)
  }

  lemma {:induction false} AnyGoneExactly(items: seq<Item>)
    ensures AnyGone(items) <==> exists k :: 0 <= k < |items| && items[k].gone
  {
    if items != [] {
      var n := |items| - 1;
      AnyGoneExactly(items[..n]);
      if k :| 0 <= k < |items| && items[k].gone {
        if k < n { assert items[..n][k].gone; }
      }
    }
  }

  /** Torpedo k of the group, and what was last sent about it. */
  predicate DueIn(torps: seq<Torp>, v: Viewer, caches: seq<Cache>, g: nat, k: nat)
    requires |torps| == |caches| == 256 && g < 32 && k < 8
  {
    Due(torps[8 * g + k], v, caches[8 * g + k])
  }

  /** A packet for a group says exactly what is due about its eight torpedoes. */
  ghost predicate GroupSays(packet: seq<bv8>, g: nat, torps: seq<Torp>, v: Viewer, caches: seq<Cache>)
    requires |torps| == |caches| == 256 && g < 32
  {
    match Decode(packet)
    case None => packet == [] && forall k: nat :: k < 8 ==> !DueIn(torps, v, caches, g, k)
    case Some(d) =>
      && packet != [] && (exists k: nat :: k < 8 && DueIn(torps, v, caches, g, k))
      && d.group as int == g && EachSays(d.infos, d.coords, g, torps, v, caches)
  }

  ghost predicate EachSays(infos: seq<Option<bv8>>, coords: seq<Option<(bv16, bv16)>>,
                           g: nat, torps: seq<Torp>, v: Viewer, caches: seq<Cache>)
    requires |torps| == |caches| == 256 && g < 32
  {
    && |infos| == |coords| == 8
    && forall k: nat :: k < 8 ==> Says(infos[k], coords[k], torps[8 * g + k], v, caches[8 * g + k])
  }

  lemma {:induction false} SilentExactly(items: seq<Item>, torps: seq<Torp>, v: Viewer, caches: seq<Cache>, g: nat)
    requires |torps| == |caches| == 256 && g < 32 && |items| == 8
    requires forall k: nat :: k < 8 ==> ItemFits(items[k], torps[8 * g + k], v, caches[8 * g + k])
    ensures Silent(items) <==> forall k: nat :: k < 8 ==> !DueIn(torps, v, caches, g, k)
  {
    AnyGoneExactly(items);
    forall k: nat | k < 8
      ensures DueIn(torps, v, caches, g, k) <==> items[k].info.Some? || items[k].coord.Some? || items[k].gone
    {
      assert ItemFits(items[k], torps[8 * g + k], v, caches[8 * g + k]);
    }
  }

  ghost predicate ItemFits(item: Item, t: Torp, v: Viewer, c: Cache) {
    Says(item.info, item.coord, t, v, c) && item.gone == GoneDue(t, v, c)
  }

  /** Statuses fit into four bits. */
  predicate AllStatuses(torps: seq<Torp>) {
    forall i :: 0 <= i < |torps| ==> torps[i].status < 16
  }

  /** Main result: the packets that the sender makes say, group by group, exactly what is due. */
  lemma {:induction false} UpdateSaysExactly(torps: seq<Torp>, v: Viewer, caches: seq<Cache>, g: nat, packet: seq<bv8>)
    requires |torps| == |caches| == 8 * GROUPS && g < GROUPS
    requires AllStatuses(torps)
    requires Carries(packet, g, Items(torps, v, caches, g))
    ensures GroupSays(packet, g, torps, v, caches)
  {
    var items := Items(torps, v, caches, g);
    forall k: nat | k < 8
      ensures ItemFits(items[k], torps[8 * g + k], v, caches[8 * g + k])
    {
      SelectSays(torps[8 * g + k], v, caches[8 * g + k]);
    }
    FitsSay(packet, g, items, torps, v, caches);
  }

  lemma {:induction false} FitsSay(packet: seq<bv8>, g: nat, items: seq<Item>, torps: seq<Torp>, v: Viewer, caches: seq<Cache>)
    requires |torps| == |caches| == 256 && g < 32 && |items| == 8 && Carries(packet, g, items)
    requires forall k: nat :: k < 8 ==> ItemFits(items[k], torps[8 * g + k], v, caches[8 * g + k])
    ensures GroupSays(packet, g, torps, v, caches)
  {
    SilentExactly(items, torps, v, caches, g);
    ItemsSay(items, g, torps, v, caches);
    ReadBack(packet, g, items);
  }

  /** What is read back is what the items hold. */
  lemma {:induction false} ReadBack(packet: seq<bv8>, g: nat, items: seq<Item>)
    requires g < GROUPS && Carries(packet, g, items)
    ensures if packet == [] then Decode(packet) == None
            else Decode(packet).Some? && Decode(packet).value.group as int == g
                 && Decode(packet).value.infos == InfoBytes(items) && Decode(packet).value.coords == Coords(items)
    ensures packet == [] <==> Silent(items)
  {
    if packet == [] { assert Decode([]) == None; }
  }

  lemma {:induction false} ItemsSay(items: seq<Item>, g: nat, torps: seq<Torp>, v: Viewer, caches: seq<Cache>)
    requires |torps| == |caches| == 256 && g < 32 && |items| == 8
    requires forall k: nat :: k < 8 ==> ItemFits(items[k], torps[8 * g + k], v, caches[8 * g + k])
    ensures EachSays(InfoBytes(items), Coords(items), g, torps, v, caches)
  {
    forall k: nat | k < 8
      ensures Says(InfoBytes(items)[k], Coords(items)[k], torps[8 * g + k], v, caches[8 * g + k])
    {
      assert ItemFits(items[k], torps[8 * g + k], v, caches[8 * g + k]);
    }
  }

  /** Main result: and the caches note down exactly that. */
  lemma {:induction false} UpdateNotesExactly(torps: seq<Torp>, v: Viewer, caches: seq<Cache>, i: nat, c': Cache)
    requires |torps| == |caches| == 8 * GROUPS && i < 8 * GROUPS && torps[i].status < 16
    requires c' == Select(torps[i], v, caches[i]).cache
    ensures Notes(c', torps[i], v, caches[i])
  {
    SelectSays(torps[i], v, caches[i]);
  }
}
