/** The INL draft (ntserv/draft.c): captains take turns picking players from a pool while
    every ship involved is animated toward the place its draft state gives it.

    This module holds the draft as a state machine over values and what every run keeps;
    DraftGame holds the imperative form. */
module Draft {

  const NOBODY: int := 0
  const FED: int := 1
  const ROM: int := 2

  datatype State =
    | Off | MovingToPool | CaptainUp | CaptainDown | Pooled
    | MovingToPick | Picked | PickedSelector | MovingToHome | End

  /** A player slot.  `ignored` is a free slot, a robot or an observer. */
  datatype Slot = Slot(ignored: bool, alive: bool, captain: bool, team: int,
                       draft: State, pool: int, pick: int, x: int, y: int)

  /** `context->inl_draft`, `inl_pool`, `inl_home_pick`, `inl_away_pick`; and, as history, how
      many times each side's captain has passed. */
  datatype World = World(slots: seq<Slot>, draft: State, pool: nat, home: nat, away: nat,
                         homePasses: nat, awayPasses: nat)

  function Put(w: World, h: nat, s: Slot): World
    requires h < |w.slots|
  {
    w.(slots := w.slots[h := s])
  }

  function SetDraft(w: World, h: nat, d: State): World
    requires h < |w.slots|
  {
    Put(w, h, w.slots[h].(draft := d))
  }

  // ---- Animation ----

  /** C's division by ten truncates toward zero. */
  function Tenth(d: int): int {
    if d >= 0 then d / 10 else -((-d) / 10)
  }

  function Abs(x: int): nat {
    if x < 0 then -x else x
  }

  function Distance(x: int, y: int, tx: int, ty: int): nat {
    Abs(x - tx) + Abs(y - ty)
  }

  /** One animation step on one axis. */
  function Toward(x: int, t: int): int {
    x - Tenth(x - t)
  }

  // ---- Roles ----

  /** The first slot, from `h` on, of a captain of `team` who is up or down. */
  function TeamToCaptain(slots: seq<Slot>, team: int, h: nat): (r: int)
    requires h <= |slots|
    ensures r == -1 || h <= r < |slots|
    decreases |slots| - h
  {
    if h == |slots| then -1
    else if !slots[h].ignored && slots[h].captain && slots[h].team == team
            && (slots[h].draft == CaptainUp || slots[h].draft == CaptainDown) then h
    else TeamToCaptain(slots, team, h + 1)
  }

  /** The first slot, from `h` on, of a captain other than `k`. */
  function OtherCaptain(slots: seq<Slot>, k: nat, h: nat): (r: int)
    requires h <= |slots|
    ensures r == -1 || h <= r < |slots|
    decreases |slots| - h
  {
    if h == |slots| then -1
    else if h != k && !slots[h].ignored && slots[h].captain then h
    else OtherCaptain(slots, k, h + 1)
  }

  function AssignToPool(w: World, j: nat): World
    requires j < |w.slots|
  {
    var s := w.slots[j].(draft := MovingToPool, pick := 0);
    if s.captain then Put(w, j, s)
    else Put(w, j, s.(pool := w.pool, team := NOBODY)).(pool := w.pool + 1)
  }

  function ArrivalCaptain(w: World, k: nat): World
    requires k < |w.slots|
  {
    var otherTeam := if w.slots[k].team == ROM then FED else ROM;
    var other := TeamToCaptain(w.slots, otherTeam, 0);
    if other == -1 then SetDraft(w, k, CaptainUp)
    else if w.slots[other].draft == CaptainUp then SetDraft(w, k, CaptainDown)
    else SetDraft(w, k, CaptainUp)
  }

  function Arrival(w: World, j: nat): World
    requires j < |w.slots|
  {
    var s := w.slots[j];
    match s.draft
    case MovingToPool => if s.captain then ArrivalCaptain(w, j) else SetDraft(w, j, Pooled)
    case MovingToPick => SetDraft(w, j, Picked)
    case Pooled => if s.captain then ArrivalCaptain(w, j) else w
    case Picked => if s.captain then ArrivalCaptain(w, j) else w
    case MovingToHome => SetDraft(w, j, End)
    case _ => w
  }

  /** One slot in one update.  `target` is the place inl_draft_place nominates. */
  function Animate(w: World, h: nat, target: (int, int)): (r: World)
    requires h < |w.slots|
    ensures |r.slots| == |w.slots|
  {
    if w.slots[h].ignored || !w.slots[h].alive then w
    else
      var w1 := if w.draft == MovingToPool && w.slots[h].draft == Off then AssignToPool(w, h) else w;
      var s := w1.slots[h];
      if Distance(s.x, s.y, target.0, target.1) > 750 then
        Put(w1, h, s.(x := Toward(s.x, target.0), y := Toward(s.y, target.1)))
      else
        Arrival(Put(w1, h, s.(x := target.0, y := target.1)), h)
  }

  function AnimateAll(w: World, n: nat, targets: seq<(int, int)>): (r: World)
    requires n <= |w.slots| == |targets|
    ensures |r.slots| == |w.slots|
  {
    if n == 0 then w else Animate(AnimateAll(w, n - 1, targets), n - 1, targets[n - 1])
  }

  predicate InPoolCount(s: Slot) {
    !s.ignored && (s.draft == MovingToPool || s.draft == Pooled || s.draft == MovingToPick)
  }

  predicate PoolEmpty(slots: seq<Slot>) {
    forall h :: 0 <= h < |slots| ==> !InPoolCount(slots[h])
  }

  predicate AllHome(slots: seq<Slot>) {
    forall h :: 0 <= h < |slots| ==> slots[h].ignored || slots[h].draft != MovingToHome
  }

  /** inl_draft_done: everybody involved starts for home. */
  function Done(w: World): World {
    w.(draft := MovingToHome,
       slots := seq(|w.slots|, h requires 0 <= h < |w.slots| =>
                  if w.slots[h].ignored then w.slots[h] else w.slots[h].(draft := MovingToHome)))
  }

  /** inl_draft_end: nobody is involved any more. */
  function Finish(w: World): World {
    w.(draft := Off,
       slots := seq(|w.slots|, h requires 0 <= h < |w.slots| => w.slots[h].(draft := Off)))
  }

  function Update(w: World, targets: seq<(int, int)>): World
    requires |w.slots| == |targets|
  {
    Ended(AnimateAll(w, |w.slots|, targets))
  }

  /** A phase that is over ends. */
  function Ended(w: World): World {
    if w.draft == MovingToPool && PoolEmpty(w.slots) then Done(w)
    else if w.draft == MovingToHome && AllHome(w.slots) then Finish(w)
    else w
  }

  function AssignAll(w: World, n: nat): (r: World)
    requires n <= |w.slots|
    ensures |r.slots| == |w.slots|
  {
    if n == 0 then w
    else
      var w1 := AssignAll(w, n - 1);
      if w1.slots[n - 1].ignored then w1 else AssignToPool(w1, n - 1)
  }

  function Begin(w: World): World {
    AssignAll(w.(draft := MovingToPool, pool := 0, home := 0, away := 0, homePasses := 0, awayPasses := 0), |w.slots|)
  }

  // ---- Selecting ----

  /** inl_draft_next: the right to pick goes to the other captain; None if there is none. */
  function Turn(w: World, k: nat): World
    requires k < |w.slots| && OtherCaptain(w.slots, k, 0) != -1
  {
    SetDraft(SetDraft(w, OtherCaptain(w.slots, k, 0), CaptainUp), k, CaptainDown)
  }

  function Pick(w: World, j: nat, k: nat): World
    requires j < |w.slots| && k < |w.slots|
  {
    var team := w.slots[k].team;
    var s := w.slots[j].(team := team, draft := MovingToPick);
    if team == FED then Put(w, j, s.(pick := w.home)).(home := w.home + 1)
    else if team == ROM then Put(w, j, s.(pick := w.away)).(away := w.away + 1)
    else Put(w, j, s)
  }

  /** Captain `k` picks pool player `j`, if there is another captain to pick next. */
  function PickAndTurn(w: World, j: nat, k: nat): World
    requires j < |w.slots| && k < |w.slots|
  {
    if w.slots[j].captain || OtherCaptain(w.slots, k, 0) == -1 then w
    else Pick(Turn(w, k), j, k)
  }

  /** A captain passes by fingering the other one. */
  function Pass(w: World, k: nat): World
    requires k < |w.slots|
  {
    if OtherCaptain(w.slots, k, 0) == -1 then w
    else
      var w1 := Turn(w, k);
      if w.slots[k].team == FED then w1.(homePasses := w.homePasses + 1)
      else w1.(awayPasses := w.awayPasses + 1)
  }

  predicate IsCaptainState(d: State) {
    d == CaptainUp || d == CaptainDown
  }

  /** inl_draft_select: player `me` fingers slot `n`. */
  function Select(w: World, me: nat, n: nat): World
    requires me < |w.slots| && n < |w.slots|
  {
    var mine := w.slots[me].draft;
    match w.slots[n].draft
    case CaptainDown => if mine == CaptainUp then Pass(w, me) else w
    case MovingToPool => SelectFromPool(w, me, n)
    case Pooled => SelectFromPool(w, me, n)
    case MovingToPick =>
      if IsCaptainState(mine) && w.slots[n].team == w.slots[me].team then SetDraft(w, n, PickedSelector) else w
    case Picked =>
      if IsCaptainState(mine) && w.slots[n].team == w.slots[me].team then SetDraft(w, n, PickedSelector) else w
    case PickedSelector =>
      if IsCaptainState(mine) && w.slots[n].team == w.slots[me].team then SetDraft(w, n, Picked) else w
    case _ => w
  }

  function SelectFromPool(w: World, me: nat, n: nat): World
    requires me < |w.slots| && n < |w.slots|
  {
    if w.slots[me].draft == CaptainUp then PickAndTurn(w, n, me)
    else if w.slots[me].draft == PickedSelector then
      var k := TeamToCaptain(w.slots, w.slots[me].team, 0);
      if k == -1 || w.slots[k].draft != CaptainUp then w else PickAndTurn(w, n, k)
    else w
  }

  // ---- What happens outside the draft code ----

  /** enter(): a player (re-)enters the game with a ship, out of the draft. */
  function Enter(w: World, h: nat, team: int, x: int, y: int): World
    requires h < |w.slots|
  {
    Put(w, h, w.slots[h].(alive := true, ignored := false, draft := Off, x := x, y := y,
                          team := if w.slots[h].captain then w.slots[h].team else team))
  }

  /** Ships die; players leave, arrive, observe; ships move.  A captain may leave like anybody
      else, and comes back by entering. */
  function Change(w: World, h: nat, ignored: bool, alive: bool, x: int, y: int): World
    requires h < |w.slots|
  {
    var s := w.slots[h];
    Put(w, h, s.(alive := alive, ignored := ignored || (s.captain && s.ignored), x := x, y := y))
  }

  datatype Event =
    | EvUpdate(targets: seq<(int, int)>)
    | EvSelect(me: nat, n: nat)
    | EvEnter(h: nat, team: int, ex: int, ey: int)
    | EvChange(c: nat, ignored: bool, alive: bool, cx: int, cy: int)

  predicate Enabled(w: World, e: Event) {
    match e
    case EvUpdate(targets) => |targets| == |w.slots|
    case EvSelect(me, n) => me < |w.slots| && n < |w.slots|
    case EvEnter(h, _, _, _) => h < |w.slots|
    case EvChange(h, _, _, _, _) => h < |w.slots|
  }

  function Apply(w: World, e: Event): World
    requires Enabled(w, e)
  {
    match e
    case EvUpdate(targets) => Update(w, targets)
    case EvSelect(me, n) => Select(w, me, n)
    case EvEnter(h, team, x, y) => Enter(w, h, team, x, y)
    case EvChange(h, ignored, alive, x, y) => Change(w, h, ignored, alive, x, y)
  }

  /** The world after a list of events; events that make no sense are skipped. */
  function After(w: World, events: seq<Event>): World {
    if events == [] then w
    else
      var w1 := After(w, events[..|events| - 1]);
      var e := events[|events| - 1];
      if Enabled(w1, e) then Apply(w1, e) else w1
  }
}
