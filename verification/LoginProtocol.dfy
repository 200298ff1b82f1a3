/** Logging in, over every interleaving (ntserv/getname.c with ntserv/db.c).

    Any number of server processes share the player file, the index and the lock
    LOCK_PLAYER_ADD.  A process looks a name up without the lock, and if it is new it takes
    the lock, looks again, seeks to the end and appends.  One step here is one system call:
    one index fetch, one record read, one index store, one seek, one write. */
module LoginProtocol {
  import opened PlayerDb

  /** Which of the three calls of `findplayer` is running. */
  datatype Phase =
    | First    // unlocked, in handleLogin
    | Recheck  // under the lock, in newplayer
    | Retry    // unlocked again, after NEWPLAYER_EXISTS

  datatype Pc =
    | Idle
    | Fetching(phase: Phase)
    | Hinted(phase: Phase, hint: int)
    | Scanning(phase: Phase, next: nat)
    | Storing(phase: Phase, found: nat)
    | WaitLock
    | SeekEnd
    | Append(offset: nat)
    | Unlock(result: int)
    | LoginFailed

  /** A process: handleLogin's static `player` and `position`, newplayer's local `existing`,
      and the name typed by the user, for a query or a login. */
  datatype Process = Process(pc: Pc, name: string, query: bool, player: Record, position: int, existing: Record)

  /** `returned` is the history: every (name, position) pair ever handed to handleLogin. */
  datatype World = World(
    file: seq<Record>,
    index: map<string, int>,
    lock: set<nat>,
    procs: seq<Process>,
    returned: set<(string, int)>)

  /** The values a step takes from outside: the name typed, whether it is only a query, the
      contents of an uninitialised buffer, the new record's body, and whether the index database
      could be written. */
  datatype Choice = Choice(name: string, query: bool, garbage: Record, body: int, storable: bool)

  /** The process is inside a call of `findplayer`. */
  predicate Finding(pc: Pc) {
    pc.Fetching? || pc.Hinted? || pc.Scanning? || pc.Storing?
  }

  function Buffer(p: Process, phase: Phase): Record {
    if phase.Recheck? then p.existing else p.player
  }

  function WithBuffer(p: Process, phase: Phase, r: Record): Process {
    if phase.Recheck? then p.(existing := r) else p.(player := r)
  }

  function Put(w: World, i: nat, p: Process): World
    requires i < |w.procs|
  {
    w.(procs := w.procs[i := p])
  }

  /** handleLogin begins, once a name has been typed; it looks the name up only if its static
      buffer holds another name. */
  function Begin(w: World, i: nat, c: Choice): World
    requires i < |w.procs|
  {
    var p := w.procs[i].(name := c.name, query := c.query);
    if c.name == "" then w
    else if p.player.name != c.name then Put(w, i, p.(pc := Fetching(First)))
    else Looked(w, i, p, First, p.position)
  }

  /** `findplayer` has returned `r` in the given phase. */
  function Looked(w: World, i: nat, p: Process, phase: Phase, r: int): World
    requires i < |w.procs|
  {
    match phase
    case First =>
      if r == NOT_FOUND then Put(w, i, p.(pc := if p.query then Idle else WaitLock, position := r))
      else Put(w, i, p.(pc := Idle, position := r)).(returned := w.returned + {(p.name, r)})
    case Recheck =>
      Put(w, i, p.(pc := if r == NOT_FOUND then SeekEnd else Unlock(NEWPLAYER_EXISTS)))
    case Retry =>
      if r == NOT_FOUND then Put(w, i, p.(pc := LoginFailed, position := r))
      else Put(w, i, p.(pc := Idle, position := r)).(returned := w.returned + {(p.name, r)})
  }

  /** One system call of `findplayer`. */
  function FindStep(w: World, i: nat, c: Choice): World
    requires i < |w.procs|
    requires Finding(w.procs[i].pc)
  {
    var p := w.procs[i];
    match p.pc
    case Fetching(phase) =>
      var hint := Fetch(w.index, p.name);
      Put(w, i, p.(pc := if hint == NOT_FOUND then Scanning(phase, 0) else Hinted(phase, hint)))
    case Hinted(phase, hint) =>
      var q := WithBuffer(p, phase, ReadAt(w.file, hint, Buffer(p, phase)));
      if Buffer(q, phase).name == p.name then Looked(w, i, q, phase, hint)
      else Put(w, i, q.(pc := Scanning(phase, 0)))
    case Scanning(phase, next) =>
      if next >= |w.file| then
        Looked(w, i, WithBuffer(p, phase, Buffer(p, phase).(name := p.name)), phase, NOT_FOUND)
      else
        var q := WithBuffer(p, phase, w.file[next]);
        Put(w, i, q.(pc := if w.file[next].name == p.name then Storing(phase, next) else Scanning(phase, next + 1)))
    case Storing(phase, found) =>
      Looked(w.(index := if c.storable then w.index[p.name := found] else w.index), i, p, phase, found)
  }

  /** One step of process `i`. */
  function Step(w: World, i: nat, c: Choice): World
    requires i < |w.procs|
  {
    var p := w.procs[i];
    match p.pc
    case Idle => Begin(w, i, c)
    case LoginFailed => Begin(w, i, c)
    case WaitLock =>
      if w.lock != {} then w
      else Put(w, i, p.(pc := Fetching(Recheck), existing := c.garbage,
                        player := Record(p.name, c.body))).(lock := {i})
    case SeekEnd => Put(w, i, p.(pc := Append(|w.file|)))
    case Append(offset) =>
      var grown := if offset < |w.file| then w.file[offset := p.player] else w.file + [p.player];
      Put(w, i, p.(pc := Unlock(offset))).(file := grown)
    case Unlock(result) =>
      if result == NEWPLAYER_EXISTS then Put(w, i, p.(pc := Fetching(Retry))).(lock := w.lock - {i})
      else Put(w, i, p.(pc := Idle)).(lock := w.lock - {i}, returned := w.returned + {(p.name, result)})
    case _ => FindStep(w, i, c)
  }

  /** A record whose name has never been written. */
  const NAMELESS: Record := Record("", 0)

  /** The player file after a record's body has been written at `at`: outside the file it grows,
      and the records in between, like the one written, have no name. */
  function Saved(file: seq<Record>, at: nat, body: int): (r: seq<Record>)
    ensures |r| == if at < |file| then |file| else at + 1
  {
    if at < |file| then file[at := file[at].(body := body)]
    else file + seq(at - |file|, _ => NAMELESS) + [NAMELESS.(body := body)]
  }

  /** `savestats`, and the daemon's `saveplayer`: part of a record is rewritten, never its name,
      wherever the player believes it to be. */
  function Save(w: World, at: nat, body: int): World {
    w.(file := Saved(w.file, at, body))
  }

  /** Players who logged in earlier know a position in the file; others one they were given. */
  ghost predicate MaySave(w: World, at: nat) {
    at < |w.file| || exists r :: r in w.returned && r.1 == at
  }

  ghost predicate Next(w: World, w': World) {
    || (exists i: nat, c: Choice :: i < |w.procs| && w' == Step(w, i, c))
    || (exists at: nat, body: int :: MaySave(w, at) && w' == Save(w, at, body))
  }

  /** Any number of idle processes, unique names, and any index whatever. */
  ghost predicate Init(w: World) {
    && UniqueNames(w.file)
    && w.lock == {} && w.returned == {}
    && forall i :: 0 <= i < |w.procs| ==> w.procs[i].pc == Idle && w.procs[i].position == NOT_FOUND
  }

  ghost predicate StepAt(run: seq<World>, k: nat) {
    k + 1 < |run| && Next(run[k], run[k + 1])
  }

  ghost predicate Run(run: seq<World>) {
    && |run| > 0 && Init(run[0])
    && forall k :: 0 <= k < |run| - 1 ==> StepAt(run, k)
  }

  // ---- The invariant ----

  ghost predicate Names(file: seq<Record>, position: int, name: string) {
    0 <= position < |file| && file[position].name == name
  }

  ghost predicate Absent(file: seq<Record>, name: string, upto: nat) {
    upto <= |file| && forall k :: 0 <= k < upto ==> file[k].name != name
  }

  /** The phase of the `findplayer` call a process is in, if it is in one. */
  predicate InPhase(pc: Pc, phase: Phase) {
    Finding(pc) && pc.phase == phase
  }

  /** The processes between lock_on and lock_off. */
  predicate HoldsLock(pc: Pc) {
    InPhase(pc, Recheck) || pc.SeekEnd? || pc.Append? || pc.Unlock?
  }

  /** All records from `offset` on are nameless. */
  ghost predicate NamelessFrom(file: seq<Record>, offset: nat) {
    offset <= |file| && forall k :: offset <= k < |file| ==> file[k].name == ""
  }

  /** What a process knows about the file, point by point, whatever the index says. */
  ghost predicate GoodProcess(file: seq<Record>, p: Process) {
    && (!p.pc.Idle? && !p.pc.LoginFailed? ==> p.name != "")
    && ((p.pc.WaitLock? || HoldsLock(p.pc)) ==> p.position == NOT_FOUND && p.player.name == p.name)
    && match p.pc
       case Hinted(_, hint) => hint != NOT_FOUND
       case Scanning(phase, next) => phase.Recheck? ==> Absent(file, p.name, next)
       case Storing(phase, found) => Names(file, found, p.name) && Buffer(p, phase).name == p.name
       case SeekEnd => Absent(file, p.name, |file|)
       case Append(offset) => NamelessFrom(file, offset) && Absent(file, p.name, |file|)
       case Unlock(result) => result != NEWPLAYER_EXISTS ==> Names(file, result, p.name)
       case _ => true
  }

  /** The position an idle process remembers was returned to it for the name in its buffer. */
  ghost predicate GoodMemory(returned: set<(string, int)>, p: Process) {
    (p.pc.Idle? || p.pc.LoginFailed?) && p.position != NOT_FOUND ==> (p.player.name, p.position) in returned
  }

  ghost predicate GoodLock(w: World) {
    && (forall i: nat :: i < |w.procs| ==> (i in w.lock <==> HoldsLock(w.procs[i].pc)))
    && (forall i, j :: i in w.lock && j in w.lock ==> i == j)
  }

  /** No two records share a name, except that several may have none. */
  ghost predicate NamedOnce(file: seq<Record>) {
    forall i, j :: 0 <= i < j < |file| && file[i].name == file[j].name ==> file[i].name == ""
  }

  /** Positions are handed out for names only. */
  ghost predicate NamedReturns(returned: set<(string, int)>) {
    forall r :: r in returned ==> r.0 != ""
  }

  ghost predicate Inv(w: World) {
    && NamedOnce(w.file) && NamedReturns(w.returned)
    && (forall i :: 0 <= i < |w.procs| ==> GoodProcess(w.file, w.procs[i]))
    && (forall i :: 0 <= i < |w.procs| ==> GoodMemory(w.returned, w.procs[i]))
    && GoodLock(w)
  }

  // ---- Every step keeps the invariant ----

  /** Records with a name are never removed or renamed. */
  ghost predicate Extends(file: seq<Record>, file': seq<Record>) {
    && |file| <= |file'|
    && forall k :: 0 <= k < |file| && file[k].name != "" ==> file'[k].name == file[k].name
  }

  /** No record is renamed, and what is new has no name. */
  ghost predicate GrowsNameless(file: seq<Record>, file': seq<Record>) {
    && |file| <= |file'|
    && forall k :: 0 <= k < |file'| ==> file'[k].name == if k < |file| then file[k].name else ""
  }

  /** What a process knows survives any extension of the file, except that the one with the lock
      also relies on nobody else writing a name. */
  lemma {:induction false} GoodProcessStable(file: seq<Record>, file': seq<Record>, p: Process)
    requires GoodProcess(file, p) && Extends(file, file')
    requires HoldsLock(p.pc) ==> GrowsNameless(file, file')
    ensures GoodProcess(file', p)
  {
  }

  lemma {:induction false} FindStepFrame(w: World, i: nat, c: Choice)
    requires i < |w.procs| && Finding(w.procs[i].pc)
    ensures var w' := FindStep(w, i, c);
            && w'.file == w.file && w.returned <= w'.returned && |w'.procs| == |w.procs|
            && forall j :: 0 <= j < |w.procs| && j != i ==> w'.procs[j] == w.procs[j]
  {
  }

  /** A name is written in the place of a nameless record, or at the end. */
  lemma {:induction false} AppendExtends(file: seq<Record>, offset: nat, player: Record)
    requires NamelessFrom(file, offset) && Absent(file, player.name, |file|) && player.name != ""
    ensures var grown := if offset < |file| then file[offset := player] else file + [player];
            && Extends(file, grown) && Names(grown, offset, player.name)
            && (NamedOnce(file) ==> NamedOnce(grown))
            && (UniqueNames(file) ==> UniqueNames(grown))
  {
  }

  lemma {:induction false} StepExtends(w: World, i: nat, c: Choice)
    requires i < |w.procs| && GoodProcess(w.file, w.procs[i]) && NamedOnce(w.file)
    ensures var w' := Step(w, i, c);
            && Extends(w.file, w'.file) && NamedOnce(w'.file)
            && (!w.procs[i].pc.Append? ==> w'.file == w.file)
            && (UniqueNames(w.file) ==> UniqueNames(w'.file))
            && w.returned <= w'.returned && |w'.procs| == |w.procs|
            && forall j :: 0 <= j < |w.procs| && j != i ==> w'.procs[j] == w.procs[j]
  {
    var p := w.procs[i];
    if Finding(p.pc) { FindStepFrame(w, i, c); }
    if p.pc.Append? { AppendExtends(w.file, p.pc.offset, p.player); }
  }

  /** What `findplayer` has established when it returns `r`: the name is in the buffer, and a
      miss under the lock is a real miss. */
  ghost predicate LookupOk(file: seq<Record>, p: Process, phase: Phase, r: int) {
    && Buffer(p, phase).name == p.name && p.name != ""
    && (r == NOT_FOUND && phase.Recheck? ==> Absent(file, p.name, |file|))
    && (phase.Recheck? ==> p.position == NOT_FOUND && p.player.name == p.name)
  }

  /** What has been handed out is remembered, and was handed out for a name. */
  ghost predicate GoodReturn(w: World, w': World, i: nat) {
    && i < |w'.procs| && GoodMemory(w'.returned, w'.procs[i])
    && (NamedReturns(w.returned) ==> NamedReturns(w'.returned))
  }

  lemma {:induction false} LookedKeepsProcess(w: World, i: nat, p: Process, phase: Phase, r: int)
    requires i < |w.procs| && LookupOk(w.file, p, phase, r)
    ensures var w' := Looked(w, i, p, phase, r);
            GoodProcess(w.file, w'.procs[i]) && GoodReturn(w, w', i)
  {
  }

  lemma {:induction false} FindStepKeepsProcess(w: World, i: nat, c: Choice)
    requires i < |w.procs| && GoodProcess(w.file, w.procs[i]) && Finding(w.procs[i].pc)
    ensures var w' := FindStep(w, i, c);
            GoodProcess(w'.file, w'.procs[i]) && GoodReturn(w, w', i)
  {
    var p := w.procs[i];
    match p.pc
    case Fetching(phase) =>
    case Hinted(phase, hint) =>
      var q := WithBuffer(p, phase, ReadAt(w.file, hint, Buffer(p, phase)));
      if Buffer(q, phase).name == p.name { LookedKeepsProcess(w, i, q, phase, hint); }
    case Scanning(phase, next) =>
      if next >= |w.file| {
        LookedKeepsProcess(w, i, WithBuffer(p, phase, Buffer(p, phase).(name := p.name)), phase, NOT_FOUND);
      }
    case Storing(phase, found) =>
      LookedKeepsProcess(w.(index := if c.storable then w.index[p.name := found] else w.index), i, p, phase, found);
  }

  lemma {:induction false} StepKeepsProcess(w: World, i: nat, c: Choice)
    requires i < |w.procs| && GoodProcess(w.file, w.procs[i]) && GoodMemory(w.returned, w.procs[i])
    ensures var w' := Step(w, i, c);
            GoodProcess(w'.file, w'.procs[i]) && GoodReturn(w, w', i)
  {
    var p := w.procs[i];
    match p.pc
    case Idle =>
      if c.name != "" && p.player.name == c.name { LookedKeepsProcess(w, i, p.(name := c.name, query := c.query), First, p.position); }
    case LoginFailed =>
      if c.name != "" && p.player.name == c.name { LookedKeepsProcess(w, i, p.(name := c.name, query := c.query), First, p.position); }
    case WaitLock =>
    case SeekEnd =>
    case Append(_) =>
    case Unlock(_) =>
    case _ => FindStepKeepsProcess(w, i, c);
  }

  lemma {:induction false} FindStepMovesNoLock(w: World, i: nat, c: Choice)
    requires i < |w.procs|
    requires Finding(w.procs[i].pc)
    ensures HoldsLock(FindStep(w, i, c).procs[i].pc) == HoldsLock(w.procs[i].pc)
    ensures FindStep(w, i, c).lock == w.lock
  {
  }

  /** The lock changes hands only at WaitLock (when free) and at Unlock. */
  lemma {:induction false} StepMovesLock(w: World, i: nat, c: Choice)
    requires i < |w.procs|
    ensures var w' := Step(w, i, c);
            var was, now := HoldsLock(w.procs[i].pc), HoldsLock(w'.procs[i].pc);
            && (was == now ==> w'.lock == w.lock)
            && (!was && now ==> w.lock == {} && w'.lock == {i})
            && (was && !now ==> w'.lock == w.lock - {i})
  {
    if Finding(w.procs[i].pc) {
      FindStepMovesNoLock(w, i, c);
    }
  }

  lemma {:induction false} StepKeepsLock(w: World, w': World, i: nat)
    requires i < |w.procs| == |w'.procs| && GoodLock(w)
    requires forall j :: 0 <= j < |w.procs| && j != i ==> w'.procs[j] == w.procs[j]
    requires var was, now := HoldsLock(w.procs[i].pc), HoldsLock(w'.procs[i].pc);
             && (was == now ==> w'.lock == w.lock)
             && (!was && now ==> w.lock == {} && w'.lock == {i})
             && (was && !now ==> w'.lock == w.lock - {i})
    ensures GoodLock(w')
  {
  }

  lemma {:induction false} StepKeepsInv(w: World, i: nat, c: Choice)
    requires Inv(w) && i < |w.procs|
    ensures Inv(Step(w, i, c))
  {
    var w' := Step(w, i, c);
    StepExtends(w, i, c);
    StepKeepsProcess(w, i, c);
    StepMovesLock(w, i, c);
    StepKeepsLock(w, w', i);
    forall j | 0 <= j < |w'.procs|
      ensures GoodProcess(w'.file, w'.procs[j]) && GoodMemory(w'.returned, w'.procs[j])
    {
      if j != i {
        assert HoldsLock(w.procs[i].pc) && HoldsLock(w.procs[j].pc) ==> i in w.lock && j in w.lock;
        GoodProcessStable(w.file, w'.file, w.procs[j]);
      }
    }
  }

  lemma {:induction false} SavedGrows(file: seq<Record>, at: nat, body: int)
    ensures GrowsNameless(file, Saved(file, at, body))
    ensures NamedOnce(file) ==> NamedOnce(Saved(file, at, body))
  {
  }

  lemma {:induction false} SaveKeepsInv(w: World, at: nat, body: int)
    requires Inv(w)
    ensures Inv(Save(w, at, body)) && Extends(w.file, Save(w, at, body).file)
  {
    var w' := Save(w, at, body);
    SavedGrows(w.file, at, body);
    forall j | 0 <= j < |w'.procs|
      ensures GoodProcess(w'.file, w'.procs[j])
    {
      GoodProcessStable(w.file, w'.file, w.procs[j]);
    }
  }

  lemma {:induction false} NextExtends(w: World, w': World)
    requires Inv(w) && Next(w, w')
    ensures Extends(w.file, w'.file) && w.returned <= w'.returned
  {
    if i: nat, c: Choice :| i < |w.procs| && w' == Step(w, i, c) {
      StepExtends(w, i, c);
    } else {
      var at: nat, body: int :| MaySave(w, at) && w' == Save(w, at, body);
      SavedGrows(w.file, at, body);
    }
  }

  lemma {:induction false} NextKeepsInv(w: World, w': World)
    requires Inv(w) && Next(w, w')
    ensures Inv(w')
  {
    if i: nat, c: Choice :| i < |w.procs| && w' == Step(w, i, c) {
      StepKeepsInv(w, i, c);
    } else {
      var at: nat, body: int :| MaySave(w, at) && w' == Save(w, at, body);
      SaveKeepsInv(w, at, body);
    }
  }

  // ---- Whole runs, from any index ----

  lemma {:induction false} RunKeepsInv(run: seq<World>, k: nat)
    requires Run(run) && k < |run|
    ensures Inv(run[k])
  {
    if k > 0 {
      RunKeepsInv(run, k - 1);
      assert StepAt(run, k - 1);
      NextKeepsInv(run[k - 1], run[k]);
    }
  }

  lemma {:induction false} RunExtends(run: seq<World>, j: nat, k: nat)
    requires Run(run) && j <= k < |run|
    ensures Extends(run[j].file, run[k].file) && run[j].returned <= run[k].returned
    decreases k - j
  {
    if j < k {
      RunExtends(run, j, k - 1);
      StepExtendsRun(run, k - 1);
      ExtendsFurther(run[j].file, run[k - 1].file, run[k].file);
    }
  }

  lemma {:induction false} StepExtendsRun(run: seq<World>, k: nat)
    requires Run(run) && k + 1 < |run|
    ensures Extends(run[k].file, run[k + 1].file) && run[k].returned <= run[k + 1].returned
  {
    RunKeepsInv(run, k);
    assert StepAt(run, k);
    NextExtends(run[k], run[k + 1]);
  }

  lemma {:induction false} ExtendsFurther(a: seq<Record>, b: seq<Record>, c: seq<Record>)
    requires Extends(a, b) && Extends(b, c)
    ensures Extends(a, c)
  {
  }

  /** Main result: over every interleaving of any number of processes, from any index, and
      wherever saves write, no two records ever share a name that is not empty, and at most one
      process is between lock_on and lock_off. */
  lemma {:induction false} NamesStayUnique(run: seq<World>, k: nat)
    requires Run(run) && k < |run|
    ensures NamedOnce(run[k].file)
    ensures forall i, j :: 0 <= i < j < |run[k].procs| ==>
              !(HoldsLock(run[k].procs[i].pc) && HoldsLock(run[k].procs[j].pc))
  {
    RunKeepsInv(run, k);
    assert GoodLock(run[k]);
  }

  /** Main result: a position that names the player at any moment names that player, and only
      that position does, at every later moment. */
  lemma {:induction false} RightPositionIsForever(run: seq<World>, j: nat, k: nat, name: string, position: int)
    requires Run(run) && j <= k < |run|
    requires Names(run[j].file, position, name) && name != ""
    ensures 0 <= position < |run[k].file|
    ensures forall q :: 0 <= q < |run[k].file| ==> (run[k].file[q].name == name <==> q == position)
  {
    RunKeepsInv(run, k);
    RunExtends(run, j, k);
  }

  // ---- When all names are unique, those of nameless records included ----

  /** A save that leaves two nameless records. */
  ghost predicate Clashes(file: seq<Record>, at: nat) {
    at > |file| || (at == |file| && Contains(file, ""))
  }

  /** Main result: a save keeps names unique if and only if it is inside the file, or right
      behind it while no record is nameless. */
  lemma {:induction false} SaveKeepsUniqueExactly(file: seq<Record>, at: nat, body: int)
    requires UniqueNames(file)
    ensures UniqueNames(Saved(file, at, body)) <==> !Clashes(file, at)
  {
    var file' := Saved(file, at, body);
    if at == |file| {
      if Contains(file, "") {
        var k :| 0 <= k < |file| && file[k].name == "";
        assert file'[k].name == file'[at].name;
      } else {
        assert forall k :: 0 <= k < |file| ==> file'[k].name == file[k].name != "";
      }
    } else if at > |file| {
      assert file'[at - 1].name == file'[at].name;
    }
  }

  ghost predicate ClashingSave(w: World, w': World) {
    exists at: nat, body: int :: w' == Save(w, at, body) && Clashes(w.file, at)
  }

  ghost predicate ClashAt(run: seq<World>, k: nat) {
    k + 1 < |run| && ClashingSave(run[k], run[k + 1])
  }

  lemma {:induction false} NextKeepsUniqueExactly(w: World, w': World)
    requires Inv(w) && Next(w, w') && UniqueNames(w.file)
    ensures UniqueNames(w'.file) <==> !ClashingSave(w, w')
  {
    if at: nat, body: int :| w' == Save(w, at, body) && Clashes(w.file, at) {
      SaveKeepsUniqueExactly(w.file, at, body);
    } else if i: nat, c: Choice :| i < |w.procs| && w' == Step(w, i, c) {
      StepExtends(w, i, c);
    } else {
      var at: nat, body: int :| MaySave(w, at) && w' == Save(w, at, body);
      SaveKeepsUniqueExactly(w.file, at, body);
    }
  }

  /** Main result: in a run all names stay unique, the empty one too, if and only if no save
      leaves two nameless records. */
  lemma {:induction false} UniqueExactly(run: seq<World>)
    requires Run(run)
    ensures (forall k :: 0 <= k < |run| ==> UniqueNames(run[k].file)) <==> (forall k :: 0 <= k < |run| ==> !ClashAt(run, k))
  {
    if forall k :: 0 <= k < |run| ==> !ClashAt(run, k) {
      forall k | 0 <= k < |run| ensures UniqueNames(run[k].file) { UniqueUntil(run, k); }
    } else if forall k :: 0 <= k < |run| ==> UniqueNames(run[k].file) {
      var k: nat :| k < |run| && ClashAt(run, k);
      RunKeepsInv(run, k);
      assert StepAt(run, k);
      NextKeepsUniqueExactly(run[k], run[k + 1]);
      assert false;
    }
  }

  lemma {:induction false} UniqueUntil(run: seq<World>, k: nat)
    requires Run(run) && k < |run| && forall j :: 0 <= j < |run| ==> !ClashAt(run, j)
    ensures UniqueNames(run[k].file)
  {
    if k > 0 {
      UniqueUntil(run, k - 1);
      assert !ClashAt(run, k - 1);
      StepKeepsUnique(run, k - 1);
    }
  }

  lemma {:induction false} StepKeepsUnique(run: seq<World>, k: nat)
    requires Run(run) && k + 1 < |run| && UniqueNames(run[k].file) && !ClashAt(run, k)
    ensures UniqueNames(run[k + 1].file)
  {
    var before, now := run[k], run[k + 1];
    RunKeepsInv(run, k);
    assert StepAt(run, k);
    NextKeepsUniqueExactly(before, now);
  }

  // ---- Which positions are right ----

  /** Every position handed out so far names its player. */
  ghost predicate GoodReturns(w: World) {
    forall r :: r in w.returned ==> Names(w.file, r.1, r.0)
  }

  /** The read that follows a hint outside the file leaves the name in the buffer: because it
      reads nothing and the buffer held the name already, or, for a negative hint, because the
      first record holds it. */
  predicate Misled(w: World, i: nat)
    requires i < |w.procs|
  {
    var p := w.procs[i];
    && p.pc.Hinted?
    && !(0 <= p.pc.hint < |w.file|)
    && ReadAt(w.file, p.pc.hint, Buffer(p, p.pc.phase)).name == p.name
  }

  /** Such a step under the lock answers "exists"; the others hand the hint out. */
  predicate HandsOut(w: World, i: nat)
    requires i < |w.procs|
  {
    Misled(w, i) && !w.procs[i].pc.phase.Recheck?
  }

  lemma {:induction false} FindStepReturns(w: World, i: nat, c: Choice)
    requires i < |w.procs| && GoodProcess(w.file, w.procs[i]) && Finding(w.procs[i].pc) && GoodReturns(w)
    ensures GoodReturns(FindStep(w, i, c)) <==> !HandsOut(w, i)
  {
    var p := w.procs[i];
    if HandsOut(w, i) { assert (p.name, p.pc.hint) in FindStep(w, i, c).returned; }
  }

  /** Main result: a step hands out a wrong position if and only if it has read outside the file
      and found the name in its buffer all the same. */
  lemma {:induction false} StepReturnsRight(w: World, i: nat, c: Choice)
    requires Inv(w) && i < |w.procs| && GoodReturns(w)
    ensures GoodReturns(Step(w, i, c)) <==> !HandsOut(w, i)
  {
    StepExtends(w, i, c);
    assert GoodProcess(w.file, w.procs[i]) && GoodMemory(w.returned, w.procs[i]);
    if Finding(w.procs[i].pc) { FindStepReturns(w, i, c); }
  }

  ghost predicate WrongReturn(w: World, w': World) {
    exists i: nat, c: Choice :: i < |w.procs| && w' == Step(w, i, c) && HandsOut(w, i)
  }

  ghost predicate WrongAt(run: seq<World>, k: nat) {
    k + 1 < |run| && WrongReturn(run[k], run[k + 1])
  }

  lemma {:induction false} NextReturnsRight(w: World, w': World)
    requires Inv(w) && Next(w, w') && GoodReturns(w)
    ensures GoodReturns(w') <==> !WrongReturn(w, w')
  {
    if i: nat, c: Choice :| i < |w.procs| && w' == Step(w, i, c) && HandsOut(w, i) {
      StepReturnsRight(w, i, c);
    } else if i: nat, c: Choice :| i < |w.procs| && w' == Step(w, i, c) {
      StepReturnsRight(w, i, c);
    } else {
      NextExtends(w, w');
    }
  }

  /** Main result: in a run from any index, every position is right when it is handed out, and so
      forever, if and only if no step hands out a hint after reading outside the file. */
  lemma {:induction false} ReturnsAreRightExactly(run: seq<World>)
    requires Run(run)
    ensures (forall k :: 0 <= k < |run| ==> GoodReturns(run[k])) <==> (forall k :: 0 <= k < |run| ==> !WrongAt(run, k))
  {
    if forall k :: 0 <= k < |run| ==> !WrongAt(run, k) {
      forall k | 0 <= k < |run| ensures GoodReturns(run[k]) { RightUntil(run, k); }
    } else if forall k :: 0 <= k < |run| ==> GoodReturns(run[k]) {
      var k: nat :| k < |run| && WrongAt(run, k);
      RunKeepsInv(run, k);
      assert StepAt(run, k);
      NextReturnsRight(run[k], run[k + 1]);
      assert false;
    }
  }

  lemma {:induction false} RightUntil(run: seq<World>, k: nat)
    requires Run(run) && k < |run| && forall j :: 0 <= j < |run| ==> !WrongAt(run, j)
    ensures GoodReturns(run[k])
  {
    if k > 0 {
      RightUntil(run, k - 1);
      RunKeepsInv(run, k - 1);
      assert StepAt(run, k - 1) && !WrongAt(run, k - 1);
      NextReturnsRight(run[k - 1], run[k]);
    }
  }

  /** While positions are right, saves are inside the file. */
  lemma {:induction false} NextRightKeepsUnique(w: World, w': World)
    requires Inv(w) && Next(w, w') && GoodReturns(w) && UniqueNames(w.file)
    ensures UniqueNames(w'.file)
  {
    if i: nat, c: Choice :| i < |w.procs| && w' == Step(w, i, c) {
      StepExtends(w, i, c);
    } else {
      var at: nat, body: int :| MaySave(w, at) && w' == Save(w, at, body);
      assert at < |w.file|;
      SaveKeepsUniqueExactly(w.file, at, body);
    }
  }

  /** Main result: in a run in which no wrong position is handed out all names stay unique. */
  lemma {:induction false} RightReturnsKeepUnique(run: seq<World>, k: nat)
    requires Run(run) && k < |run| && forall j :: 0 <= j < |run| ==> !WrongAt(run, j)
    ensures UniqueNames(run[k].file)
  {
    if k > 0 {
      RightReturnsKeepUnique(run, k - 1);
      RightUntil(run, k - 1);
      StepRightKeepsUnique(run, k - 1);
    }
  }

  lemma {:induction false} StepRightKeepsUnique(run: seq<World>, k: nat)
    requires Run(run) && k + 1 < |run| && GoodReturns(run[k]) && UniqueNames(run[k].file)
    ensures UniqueNames(run[k + 1].file)
  {
    var before, now := run[k], run[k + 1];
    RunKeepsInv(run, k);
    assert StepAt(run, k);
    NextRightKeepsUnique(before, now);
  }

  // ---- Runs in which no read goes outside the file ----

  /** A process that was told that the name exists can rely on it, and one about to append finds
      the end of the file where it was. */
  ghost predicate Sure(file: seq<Record>, p: Process) {
    && ((InPhase(p.pc, Retry) || p.pc == Unlock(NEWPLAYER_EXISTS)) ==> Contains(file, p.name))
    && (p.pc.Scanning? && p.pc.phase.Retry? ==> Absent(file, p.name, p.pc.next))
    && (p.pc.Append? ==> p.pc.offset == |file|)
    && !p.pc.LoginFailed?
  }

  ghost predicate AllSure(w: World) {
    forall i :: 0 <= i < |w.procs| ==> Sure(w.file, w.procs[i])
  }

  ghost predicate HintsInFile(file: seq<Record>, index: map<string, int>) {
    forall n :: n in index ==> index[n] == NOT_FOUND || 0 <= index[n] < |file|
  }

  ghost predicate Inside(w: World) {
    && HintsInFile(w.file, w.index)
    && forall i :: 0 <= i < |w.procs| && w.procs[i].pc.Hinted? ==> 0 <= w.procs[i].pc.hint < |w.file|
  }

  /** No record is renamed. */
  ghost predicate Grows(file: seq<Record>, file': seq<Record>) {
    && |file| <= |file'|
    && forall k :: 0 <= k < |file| ==> file'[k].name == file[k].name
  }

  lemma {:induction false} FindStepKeepsSure(w: World, i: nat, c: Choice)
    requires i < |w.procs| && Finding(w.procs[i].pc)
    requires GoodProcess(w.file, w.procs[i]) && Sure(w.file, w.procs[i]) && !Misled(w, i)
    ensures Sure(w.file, FindStep(w, i, c).procs[i])
  {
    var p := w.procs[i];
    if p.pc.Hinted? && 0 <= p.pc.hint < |w.file| && w.file[p.pc.hint].name == p.name {
      assert Contains(w.file, p.name);
    }
    if p.pc.Storing? { assert Contains(w.file, p.name); }
    if InPhase(p.pc, Retry) {
      var k :| 0 <= k < |w.file| && w.file[k].name == p.name;
      assert p.pc.Scanning? ==> p.pc.next <= k;
    }
  }

  lemma {:induction false} StepKeepsSure(w: World, i: nat, c: Choice)
    requires i < |w.procs| && GoodProcess(w.file, w.procs[i]) && Sure(w.file, w.procs[i]) && !Misled(w, i)
    ensures Grows(w.file, Step(w, i, c).file) && Sure(Step(w, i, c).file, Step(w, i, c).procs[i])
  {
    if Finding(w.procs[i].pc) {
      FindStepFrame(w, i, c);
      FindStepKeepsSure(w, i, c);
    }
  }

  lemma {:induction false} SureStable(file: seq<Record>, file': seq<Record>, p: Process)
    requires Sure(file, p) && Grows(file, file') && (p.pc.Append? ==> |file'| == |file|)
    ensures Sure(file', p)
  {
    if Contains(file, p.name) {
      var k :| 0 <= k < |file| && file[k].name == p.name;
      assert file'[k].name == p.name;
    }
  }

  lemma {:induction false} FindStepStaysInside(w: World, i: nat, c: Choice)
    requires i < |w.procs| && GoodProcess(w.file, w.procs[i]) && Finding(w.procs[i].pc) && Inside(w)
    ensures var w' := FindStep(w, i, c);
            && HintsInFile(w.file, w'.index)
            && (w'.procs[i].pc.Hinted? ==> 0 <= w'.procs[i].pc.hint < |w.file|)
  {
  }

  lemma {:induction false} StepStaysInside(w: World, i: nat, c: Choice)
    requires Inv(w) && i < |w.procs| && Inside(w)
    ensures Inside(Step(w, i, c))
  {
    var w' := Step(w, i, c);
    StepExtends(w, i, c);
    assert GoodProcess(w.file, w.procs[i]);
    if Finding(w.procs[i].pc) {
      FindStepStaysInside(w, i, c);
    } else {
      assert w'.index == w.index && !w'.procs[i].pc.Hinted?;
    }
  }

  lemma {:induction false} StepStaysSure(w: World, i: nat, c: Choice)
    requires Inv(w) && i < |w.procs| && AllSure(w) && Inside(w)
    ensures AllSure(Step(w, i, c))
  {
    var w' := Step(w, i, c);
    StepExtends(w, i, c);
    assert !Misled(w, i);
    StepKeepsSure(w, i, c);
    forall j | 0 <= j < |w'.procs| ensures Sure(w'.file, w'.procs[j]) {
      if j != i {
        assert HoldsLock(w.procs[i].pc) && HoldsLock(w.procs[j].pc) ==> i in w.lock && j in w.lock;
        SureStable(w.file, w'.file, w'.procs[j]);
      }
    }
  }

  lemma {:induction false} SaveStaysInside(w: World, at: nat, body: int)
    requires AllSure(w) && Inside(w) && at < |w.file|
    ensures AllSure(Save(w, at, body)) && Inside(Save(w, at, body))
  {
    var w' := Save(w, at, body);
    forall j | 0 <= j < |w'.procs| ensures Sure(w'.file, w'.procs[j]) { SureStable(w.file, w'.file, w.procs[j]); }
  }

  lemma {:induction false} NextKeepsInside(w: World, w': World)
    requires Inv(w) && Next(w, w') && AllSure(w) && Inside(w) && GoodReturns(w)
    ensures AllSure(w') && Inside(w') && !WrongReturn(w, w')
  {
    if i: nat, c: Choice :| i < |w.procs| && w' == Step(w, i, c) {
      StepStaysInside(w, i, c);
      StepStaysSure(w, i, c);
    } else {
      var at: nat, body: int :| MaySave(w, at) && w' == Save(w, at, body);
      assert at < |w.file|;
      SaveStaysInside(w, at, body);
    }
  }

  lemma {:induction false} RunStaysInside(run: seq<World>, k: nat)
    requires Run(run) && HintsInFile(run[0].file, run[0].index) && k < |run|
    ensures AllSure(run[k]) && Inside(run[k]) && GoodReturns(run[k])
  {
    if k > 0 {
      RunStaysInside(run, k - 1);
      RunKeepsInv(run, k - 1);
      assert StepAt(run, k - 1);
      NextKeepsInside(run[k - 1], run[k]);
      NextReturnsRight(run[k - 1], run[k]);
    }
  }

  /** Main result: from an index whose hints are inside the file, however stale, every position
      handed out is right, all names stay unique, and no login fails because a name that newplayer
      reported as taken cannot be found again. */
  lemma {:induction false} HintsInsideNeverMislead(run: seq<World>, k: nat)
    requires Run(run) && HintsInFile(run[0].file, run[0].index) && k < |run|
    ensures GoodReturns(run[k]) && UniqueNames(run[k].file)
    ensures forall i :: 0 <= i < |run[k].procs| ==> !run[k].procs[i].pc.LoginFailed?
  {
    forall j | 0 <= j < |run| ensures !WrongAt(run, j) {
      if j + 1 < |run| {
        RunStaysInside(run, j);
        RunKeepsInv(run, j);
        assert StepAt(run, j);
        NextKeepsInside(run[j], run[j + 1]);
      }
    }
    RightReturnsKeepUnique(run, k);
    RunStaysInside(run, k);
    assert forall i :: 0 <= i < |run[k].procs| ==> Sure(run[k].file, run[k].procs[i]);
  }

  // ---- A run that goes wrong ----

  /** The player file has been cut down to nothing, and the index still has a hint. */
  function CutDown(pc: Pc, player: Record, existing: Record, lock: set<nat>, returned: set<(string, int)>): World {
    World([], map["Spock" := 7], lock, [Process(pc, "Spock", false, player, NOT_FOUND, existing)], returned)
  }

  /** Spock logs in, and the stack buffer of newplayer happens to hold his name: newplayer says
      that he exists, and the retry, with his name in its own buffer, returns position 7. */
  function GoesWrong(): seq<World> {
    var empty, spock := Record("", 0), Record("Spock", 0);
    [ CutDown(Idle, empty, empty, {}, {}),
      CutDown(Fetching(First), empty, empty, {}, {}),
      CutDown(Hinted(First, 7), empty, empty, {}, {}),
      CutDown(Scanning(First, 0), empty, empty, {}, {}),
      CutDown(WaitLock, spock, empty, {}, {}),
      CutDown(Fetching(Recheck), spock, spock, {0}, {}),
      CutDown(Hinted(Recheck, 7), spock, spock, {0}, {}),
      CutDown(Unlock(NEWPLAYER_EXISTS), spock, spock, {0}, {}),
      CutDown(Fetching(Retry), spock, spock, {}, {}),
      CutDown(Hinted(Retry, 7), spock, spock, {}, {}),
      CutDown(Idle, spock, spock, {}, {("Spock", 7)}).(procs := [Process(Idle, "Spock", false, spock, 7, spock)]) ]
  }

  lemma {:induction false} FirstSteps()
    ensures forall k :: 0 <= k < 5 ==> StepAt(GoesWrong(), k)
  {
    var run := GoesWrong();
    var c := Choice("Spock", false, Record("Spock", 0), 0, true);
    forall k | 0 <= k < 5 ensures StepAt(run, k) { assert run[k + 1] == Step(run[k], 0, c); }
  }

  lemma {:induction false} LastSteps()
    ensures forall k :: 5 <= k < 10 ==> StepAt(GoesWrong(), k)
  {
    var run := GoesWrong();
    var c := Choice("Spock", false, Record("Spock", 0), 0, true);
    forall k | 5 <= k < 10 ensures StepAt(run, k) { assert run[k + 1] == Step(run[k], 0, c); }
  }

  lemma {:induction false} CutDownGoesWrong()
    ensures Run(GoesWrong())
    ensures ("Spock", 7) in GoesWrong()[10].returned && GoesWrong()[10].file == []
  {
    FirstSteps();
    LastSteps();
  }

  /** Spock's next save writes at position 7 and leaves eight records without a name. */
  function GoesOnSaving(body: int): seq<World> {
    GoesWrong() + [Save(GoesWrong()[10], 7, body)]
  }

  lemma {:induction false} SavingBreaksUnique(body: int)
    ensures Run(GoesOnSaving(body)) && |GoesOnSaving(body)[11].file| == 8 && !UniqueNames(GoesOnSaving(body)[11].file)
  {
    CutDownGoesWrong();
    var wrong, run := GoesWrong(), GoesOnSaving(body);
    forall k | 0 <= k < |run| - 1 ensures StepAt(run, k) {
      if k < 10 {
        assert StepAt(wrong, k);
        assert run[k] == wrong[k] && run[k + 1] == wrong[k + 1];
      } else {
        assert MaySave(run[10], 7) by { assert ("Spock", 7) in run[10].returned; }
        assert run[11] == Save(run[10], 7, body);
      }
    }
    assert Clashes(run[10].file, 7);
    SaveKeepsUniqueExactly(run[10].file, 7, body);
  }

  // ---- The steps, run without interference, are findplayer ----

  /** An upper bound on the system calls left in the current `findplayer`. */
  function CallsLeft(file: seq<Record>, pc: Pc): nat {
    match pc
    case Fetching(_) => |file| + 4
    case Hinted(_, _) => |file| + 3
    case Scanning(_, next) => if next < |file| then |file| - next + 2 else 2
    case Storing(_, _) => 1
    case _ => 0
  }

  /** Process `i` runs alone until its `findplayer` returns. */
  function Alone(w: World, i: nat, c: Choice): World
    requires i < |w.procs|
    decreases CallsLeft(w.file, w.procs[i].pc)
  {
    if Finding(w.procs[i].pc) then Alone(FindStep(w, i, c), i, c) else w
  }

  /** How `findplayer` ends: the index and the buffer as given, and `position` returned. */
  function Return(w: World, i: nat, p: Process, phase: Phase, r: Outcome): World
    requires i < |w.procs|
  {
    Looked(w.(index := r.index), i, WithBuffer(p, phase, r.buffer), phase, r.position)
  }

  /** The rest of a scan that starts at record `next`. */
  function ScanFrom(file: seq<Record>, index: map<string, int>, name: string, buffer: Record, next: nat): Outcome
    requires next <= |file|
  {
    var found := Scan(file, name, next);
    if found == NOT_FOUND then Outcome(NOT_FOUND, LastRead(file[next..], buffer).(name := name), index)
    else Outcome(found, file[found], index[name := found])
  }

  /** Returning overwrites the program counter, the buffer and the slot of the process. */
  lemma {:induction false} ReturnForgets(w: World, i: nat, p: Process, phase: Phase, pc: Pc, read: Record, r: Outcome)
    requires i < |w.procs|
    ensures var q := WithBuffer(p, phase, read).(pc := pc);
            Return(Put(w, i, q), i, q, phase, r) == Return(w, i, p, phase, r)
  {
    var q := WithBuffer(p, phase, read).(pc := pc);
    var x := Return(w, i, p, phase, r).procs[i];
    assert w.procs[i := q][i := x] == w.procs[i := x];
  }

  lemma {:induction false} ScanAlone(w: World, i: nat, c: Choice, p: Process, phase: Phase, next: nat)
    requires i < |w.procs| && p == w.procs[i] && p.pc == Scanning(phase, next)
    requires next <= |w.file| && c.storable
    ensures Alone(w, i, c) == Return(w, i, p, phase, ScanFrom(w.file, w.index, p.name, Buffer(p, phase), next))
    decreases |w.file| - next
  {
    if next < |w.file| {
      var read := w.file[next];
      var pc := if read.name == p.name then Storing(phase, next) else Scanning(phase, next + 1);
      var q := WithBuffer(p, phase, read).(pc := pc);
      var w1 := Put(w, i, q);
      assert FindStep(w, i, c) == w1;
      ReturnForgets(w, i, p, phase, pc, read, ScanFrom(w.file, w.index, p.name, Buffer(p, phase), next));
      if read.name == p.name {
        assert Alone(w1, i, c) == FindStep(w1, i, c);
      } else {
        ScanAlone(w1, i, c, q, phase, next + 1);
      }
    } else {
      assert w.file[next..] == [];
      assert Alone(w, i, c) == FindStep(w, i, c);
    }
  }

  /** A `findplayer` that nobody interrupts returns, stores and leaves in its buffer what the
      function `Lookup` says. */
  lemma {:induction false} FindPlayerAlone(w: World, i: nat, c: Choice, p: Process, phase: Phase)
    requires i < |w.procs| && p == w.procs[i] && p.pc == Fetching(phase) && c.storable
    ensures Alone(w, i, c) ==
            Return(w, i, p, phase, Lookup(true, w.file, w.index, p.name, Buffer(p, phase), true))
  {
    var r := Lookup(true, w.file, w.index, p.name, Buffer(p, phase), true);
    var hint := Fetch(w.index, p.name);
    var q := p.(pc := if hint == NOT_FOUND then Scanning(phase, 0) else Hinted(phase, hint));
    var w1 := FindStep(w, i, c);
    assert w1 == Put(w, i, q);
    assert w.file[0..] == w.file;
    ReturnForgets(w, i, p, phase, q.pc, Buffer(p, phase), r);
    assert WithBuffer(p, phase, Buffer(p, phase)).(pc := q.pc) == q;
    if hint == NOT_FOUND {
      ScanAlone(w1, i, c, q, phase, 0);
    } else {
      HintAlone(w1, i, c, q, phase, hint, r);
    }
  }

  lemma {:induction false} HintAlone(w: World, i: nat, c: Choice, p: Process, phase: Phase, hint: int, r: Outcome)
    requires i < |w.procs| && p == w.procs[i] && p.pc == Hinted(phase, hint) && c.storable
    requires hint == Fetch(w.index, p.name) != NOT_FOUND
    requires r == Lookup(true, w.file, w.index, p.name, Buffer(p, phase), true)
    ensures Alone(w, i, c) == Return(w, i, p, phase, r)
  {
    var read := ReadAt(w.file, hint, Buffer(p, phase));
    var w1 := FindStep(w, i, c);
    assert w.file[0..] == w.file;
    if read.name == p.name {
      assert Alone(w, i, c) == w1;
    } else {
      var q := WithBuffer(p, phase, read).(pc := Scanning(phase, 0));
      assert w1 == Put(w, i, q);
      ReturnForgets(w, i, p, phase, q.pc, read, r);
      ScanAlone(w1, i, c, q, phase, 0);
    }
  }
}
