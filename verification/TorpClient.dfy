/** What a client that reads the short torpedo packets as their format says (docs/README.SHORT)
    believes about the status of a torpedo: in which updates it comes to believe something else
    than the server has noted down. */
module TorpClient {
  import opened BitStream
  import opened TorpPacket

  /** The status read from the packet for a group: the info byte has it in its upper bits; without
      one the bit for the position stands for moving or free; without a packet nothing changes. */
  function ReadStatus(known: bv8, packet: seq<bv8>, k: nat): bv8 {
    match Decode(packet)
    case None => known
    case Some(d) =>
      if k >= |d.infos| || k >= |d.coords| then known
      else if d.infos[k].Some? then d.infos[k].value >> 4
      else if d.coords[k].Some? then TMOVE
      else TFREE
  }

  // ---- One update ----

  /** The torpedo's position is sent. */
  predicate Due(t: Torp, c: Cache) {
    c.x != t.x || c.y != t.y || (t.gspeed == 0 && t.status != TFREE)
  }

  predicate Own(t: Torp, v: Viewer) {
    t.owner == v.no
  }

  /** The war mask as this client sees it. */
  function War(t: Torp, v: Viewer): bv8 {
    if Own(t, v) then t.war else t.war & v.team
  }

  /** The cases in which the client goes wrong about a torpedo: its status is noted down but not
      sent, or the bit without an info byte says something else. */
  predicate Misread(t: Torp, v: Viewer, c: Cache, sent: bool) {
    if Own(t, v) && v.fullResolution then sent && c.status != TFREE
    else if Own(t, v) && t.war == c.war && t.status == TFREE && c.status != TFREE then false
    else if !Own(t, v) && (!InView(t, v) || t.status == TFREE) then
      t.status == TFREE && c.status == TEXPLODE && !sent
    else MisreadChange(t, c, War(t, v), sent)
  }

  /** The same for a torpedo that is shown. */
  predicate MisreadChange(t: Torp, c: Cache, war: bv8, sent: bool) {
    && war == c.war
    && if t.status == c.status then if Due(t, c) then t.status != TMOVE else sent && t.status != TFREE
       else t.status == TMOVE && !Due(t, c)
  }

  lemma {:induction false} StatusOfInfo(war: bv8, status: bv8)
    requires status < 16
    ensures InfoByte(war, status) >> 4 == status
  {
  }

  lemma {:induction false} NobodyGone(items: seq<Item>, k: nat)
    requires k < |items| && !AnyGone(items)
    ensures !items[k].gone
  {
    if k < |items| - 1 {
      NobodyGone(items[..|items| - 1], k);
      assert items[..|items| - 1][k] == items[k];
    }
  }

  /** What an item says to a client; nothing if no packet is sent. */
  function Told(known: bv8, item: Item, sent: bool): bv8 {
    if !sent then known
    else if item.info.Some? then item.info.value >> 4
    else if item.coord.Some? then TMOVE
    else TFREE
  }

  lemma {:induction false} PacketTells(known: bv8, packet: seq<bv8>, g: nat, items: seq<Item>, k: nat)
    requires g < GROUPS && k < |items| && Carries(packet, g, items)
    ensures ReadStatus(known, packet, k) == Told(known, items[k], packet != [])
    ensures packet == [] ==> Empty(items[k])
  {
    if packet == [] {
      assert Decode(packet) == None;
      NobodyGone(items, k);
    } else {
      assert Coords(items)[k] == items[k].coord && InfoBytes(items)[k] == items[k].info;
    }
  }

  /** Unsent, there is nothing in it. */
  predicate Empty(item: Item) {
    item.info.None? && item.coord.None? && !item.gone
  }

  lemma {:induction false} ChangeToldExactly(t: Torp, v: Viewer, c: Cache, war: bv8, sent: bool)
    requires t.status < 16 && (!sent ==> Empty(Changed(t, v, c, war)))
    ensures Told(c.status, Changed(t, v, c, war), sent) == Changed(t, v, c, war).cache.status
            <==> !MisreadChange(t, c, war, sent)
  {
    var item := Changed(t, v, c, war);
    if war != c.war || (t.status != c.status && t.status != TMOVE) {
      assert item.info == Some(InfoByte(war, t.status)) && item.cache.status == t.status;
      StatusOfInfo(war, t.status);
    } else {
      assert item.info == None && item.coord.Some? == Due(t, c) && item.cache.status == t.status;
    }
  }

  lemma {:induction false} ToldExactly(t: Torp, v: Viewer, c: Cache, sent: bool)
    requires t.status < 16 && (!sent ==> Empty(Select(t, v, c)))
    ensures Told(c.status, Select(t, v, c), sent) == Select(t, v, c).cache.status <==> !Misread(t, v, c, sent)
  {
    if Own(t, v) && v.fullResolution {
    } else if Own(t, v) && t.war == c.war && t.status == TFREE && c.status != TFREE {
      StatusOfInfo(c.war, TFREE);
    } else if !Own(t, v) && (!InView(t, v) || t.status == TFREE) {
    } else {
      assert Select(t, v, c) == Changed(t, v, c, War(t, v));
      ChangeToldExactly(t, v, c, War(t, v), sent);
    }
  }

  /** Main result: a client that knew the status noted down before an update knows the one noted
      down after it if and only if the update is none of the cases of `Misread`. */
  lemma {:induction false} UpdateIsReadExactly(torps: seq<Torp>, v: Viewer, caches: seq<Cache>, packet: seq<bv8>, g: nat, k: nat)
    requires |torps| == |caches| == 8 * GROUPS && g < GROUPS && k < 8 && torps[8 * g + k].status < 16
    requires Carries(packet, g, Items(torps, v, caches, g))
    ensures var t, c := torps[8 * g + k], caches[8 * g + k];
            ReadStatus(c.status, packet, k) == Select(t, v, c).cache.status <==> !Misread(t, v, c, packet != [])
  {
    var items := Items(torps, v, caches, g);
    ItemIsReadExactly(torps[8 * g + k], v, caches[8 * g + k], packet, g, items, k);
  }

  lemma {:induction false} ItemIsReadExactly(t: Torp, v: Viewer, c: Cache, packet: seq<bv8>, g: nat, items: seq<Item>, k: nat)
    requires g < GROUPS && k < |items| && items[k] == Select(t, v, c) && t.status < 16 && Carries(packet, g, items)
    ensures ReadStatus(c.status, packet, k) == items[k].cache.status <==> !Misread(t, v, c, packet != [])
  {
    var read := ReadAs(c.status, packet, g, items, k);
    ToldExactly(t, v, c, packet != []);
  }

  lemma {:induction false} ReadAs(known: bv8, packet: seq<bv8>, g: nat, items: seq<Item>, k: nat) returns (read: bv8)
    requires g < GROUPS && k < |items| && Carries(packet, g, items)
    ensures read == ReadStatus(known, packet, k) == Told(known, items[k], packet != [])
    ensures packet == [] ==> Empty(items[k])
  {
    read := ReadStatus(known, packet, k);
    PacketTells(known, packet, g, items, k);
  }

  /** A torpedo in flight that has not moved since the last update vanishes from the client when
      anything else is sent about its group. */
  lemma {:induction false} StillTorpVanishes(torps: seq<Torp>, v: Viewer, caches: seq<Cache>, packet: seq<bv8>, g: nat, k: nat)
    requires |torps| == |caches| == 8 * GROUPS && g < GROUPS && k < 8
    requires Carries(packet, g, Items(torps, v, caches, g)) && packet != []
    requires var t, c := torps[8 * g + k], caches[8 * g + k];
             && !Own(t, v) && InView(t, v) && War(t, v) == c.war
             && t.status == c.status == TMOVE && t.gspeed != 0 && c.x == t.x && c.y == t.y
    ensures ReadStatus(TMOVE, packet, k) == TFREE
    ensures Select(torps[8 * g + k], v, caches[8 * g + k]).cache.status == TMOVE
  {
    var items := Items(torps, v, caches, g);
    StillItem(torps[8 * g + k], v, caches[8 * g + k]);
    var read := ReadAs(TMOVE, packet, g, items, k);
  }

  lemma {:induction false} StillItem(t: Torp, v: Viewer, c: Cache)
    requires !Own(t, v) && InView(t, v) && War(t, v) == c.war
    requires t.status == c.status == TMOVE && t.gspeed != 0 && c.x == t.x && c.y == t.y
    ensures Select(t, v, c) == Item(c, None, None, false)
  {
  }

  // ---- Runs ----

  /** What one update starts from, and the packets it sends, one for each group. */
  datatype Frame = Frame(torps: seq<Torp>, viewer: Viewer, packets: seq<seq<bv8>>)

  /** The frames are what the sender makes of them, each from the caches the one before left. */
  ghost predicate Sent(caches: seq<Cache>, frames: seq<Frame>, n: nat)
    requires |caches| == 8 * GROUPS && n <= |frames|
    decreases n
  {
    n == 0 ||
    (var f := frames[n - 1];
     && Sent(caches, frames, n - 1)
     && |f.torps| == 8 * GROUPS && |f.packets| == GROUPS
     && (forall i :: 0 <= i < 8 * GROUPS ==> f.torps[i].status < 16)
     && forall g: nat :: g < GROUPS ==>
          Carries(f.packets[g], g, Items(f.torps, f.viewer, Noted(caches, frames, n - 1), g)))
  }

  /** The caches after `n` frames. */
  ghost function Noted(caches: seq<Cache>, frames: seq<Frame>, n: nat): (r: seq<Cache>)
    requires |caches| == 8 * GROUPS && n <= |frames|
    ensures |r| == 8 * GROUPS
  {
    if n == 0 then caches
    else
      var before := Noted(caches, frames, n - 1);
      var f := frames[n - 1];
      if |f.torps| != 8 * GROUPS then before else UpTo(f.torps, f.viewer, before, GROUPS)
  }

  /** The status a client that starts with `known` believes in after `n` frames. */
  function Known(known: bv8, frames: seq<Frame>, i: nat, n: nat): bv8
    requires n <= |frames|
  {
    if n == 0 then known
    else
      var before := Known(known, frames, i, n - 1);
      var packets := frames[n - 1].packets;
      if i / 8 < |packets| then ReadStatus(before, packets[i / 8], i % 8) else before
  }

  /** The client believes what is noted down. */
  ghost predicate Agrees(caches: seq<Cache>, frames: seq<Frame>, i: nat, n: nat)
    requires |caches| == 8 * GROUPS && n <= |frames| && i < 8 * GROUPS
  {
    Known(caches[i].status, frames, i, n) == Noted(caches, frames, n)[i].status
  }

  ghost predicate MisreadIn(caches: seq<Cache>, frames: seq<Frame>, i: nat, n: nat)
    requires |caches| == 8 * GROUPS && n < |frames| && i < 8 * GROUPS
  {
    var f := frames[n];
    && |f.torps| == 8 * GROUPS && |f.packets| == GROUPS
    && Misread(f.torps[i], f.viewer, Noted(caches, frames, n)[i], f.packets[i / 8] != [])
  }

  lemma {:induction false} SentEarlier(caches: seq<Cache>, frames: seq<Frame>, n: nat, m: nat)
    requires |caches| == 8 * GROUPS && m <= n <= |frames| && Sent(caches, frames, n)
    ensures Sent(caches, frames, m)
  {
    if m < n { SentEarlier(caches, frames, n - 1, m); }
  }

  lemma {:induction false} FrameKnown(caches: seq<Cache>, frames: seq<Frame>, i: nat, n: nat)
    requires |caches| == 8 * GROUPS && n < |frames| && i < 8 * GROUPS && Sent(caches, frames, n + 1)
    ensures var f, c := frames[n], Noted(caches, frames, n)[i];
            && Noted(caches, frames, n + 1)[i] == Select(f.torps[i], f.viewer, c).cache
            && forall known :: Known(known, frames, i, n + 1)
                               == ReadStatus(Known(known, frames, i, n), f.packets[i / 8], i % 8)
  {
  }

  lemma {:induction false} FrameIsReadExactly(caches: seq<Cache>, frames: seq<Frame>, i: nat, n: nat)
    requires |caches| == 8 * GROUPS && n < |frames| && i < 8 * GROUPS
    requires Sent(caches, frames, n + 1) && Agrees(caches, frames, i, n)
    ensures Agrees(caches, frames, i, n + 1) <==> !MisreadIn(caches, frames, i, n)
  {
    var f, before := frames[n], Noted(caches, frames, n);
    var g, k := i / 8, i % 8;
    assert i == 8 * g + k;
    FrameKnown(caches, frames, i, n);
    UpdateIsReadExactly(f.torps, f.viewer, before, f.packets[g], g, k);
  }

  lemma {:induction false} AgreesUntil(caches: seq<Cache>, frames: seq<Frame>, i: nat, n: nat)
    requires |caches| == 8 * GROUPS && n <= |frames| && i < 8 * GROUPS && Sent(caches, frames, n)
    requires forall m :: 0 <= m < |frames| ==> !MisreadIn(caches, frames, i, m)
    ensures Agrees(caches, frames, i, n)
  {
    if n > 0 {
      AgreesUntil(caches, frames, i, n - 1);
      FrameIsReadExactly(caches, frames, i, n - 1);
    }
  }

  /** Main result: in every run of updates, a client that starts in agreement stays in agreement
      about a torpedo all the time if and only if no update is misread. */
  lemma {:induction false} RunIsReadExactly(caches: seq<Cache>, frames: seq<Frame>, i: nat)
    requires |caches| == 8 * GROUPS && i < 8 * GROUPS && Sent(caches, frames, |frames|)
    ensures (forall n :: 0 <= n <= |frames| ==> Agrees(caches, frames, i, n))
            <==> (forall n :: 0 <= n < |frames| ==> !MisreadIn(caches, frames, i, n))
  {
    if forall n :: 0 <= n < |frames| ==> !MisreadIn(caches, frames, i, n) {
      forall n | 0 <= n <= |frames| ensures Agrees(caches, frames, i, n) {
        SentEarlier(caches, frames, |frames|, n);
        AgreesUntil(caches, frames, i, n);
      }
    } else {
      var n :| 0 <= n < |frames| && MisreadIn(caches, frames, i, n);
      SentEarlier(caches, frames, |frames|, n + 1);
      if Agrees(caches, frames, i, n) { FrameIsReadExactly(caches, frames, i, n); }
    }
  }
}
