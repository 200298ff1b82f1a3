/** A login that nobody interrupts succeeds: it finds the player, or adds a new one. */
module LoginAlone {
  import opened PlayerDb
  import opened LoginProtocol

  /** Process i takes n steps, and nobody else does anything. */
  function Steps(w: World, i: nat, c: Choice, n: nat): (r: World)
    requires i < |w.procs|
    ensures |r.procs| == |w.procs|
    decreases n
  {
    if n == 0 then w
    else
      StepKeepsProcs(w, i, c);
      Steps(Step(w, i, c), i, c, n - 1)
  }

  lemma {:induction false} StepKeepsProcs(w: World, i: nat, c: Choice)
    requires i < |w.procs|
    ensures |Step(w, i, c).procs| == |w.procs|
  {
    if Finding(w.procs[i].pc) { FindStepFrame(w, i, c); }
  }

  lemma {:induction false} StepsAdd(w: World, i: nat, c: Choice, m: nat, n: nat)
    requires i < |w.procs|
    ensures Steps(Steps(w, i, c, m), i, c, n) == Steps(w, i, c, m + n)
    decreases m
  {
    if m > 0 {
      StepKeepsProcs(w, i, c);
      StepsAdd(Step(w, i, c), i, c, m - 1, n);
    }
  }

  /** The system calls of one look-up are some of these steps. */
  lemma {:induction false} AloneIsSteps(w: World, i: nat, c: Choice) returns (n: nat)
    requires i < |w.procs|
    ensures Steps(w, i, c, n) == Alone(w, i, c)
    decreases CallsLeft(w.file, w.procs[i].pc)
  {
    if Finding(w.procs[i].pc) {
      FindStepFrame(w, i, c);
      var m := AloneIsSteps(FindStep(w, i, c), i, c);
      n := m + 1;
      assert Step(w, i, c) == FindStep(w, i, c);
    } else {
      n := 0;
    }
  }

  /** The process is at the start of a look-up: it comes to its end, with what `Lookup` says. */
  lemma {:induction false} LooksUp(w: World, i: nat, c: Choice, phase: Phase) returns (n: nat, w': World)
    requires i < |w.procs| && w.procs[i].pc == Fetching(phase) && c.storable
    ensures w' == Steps(w, i, c, n)
    ensures var p := w.procs[i];
            w' == Return(w, i, p, phase, Lookup(true, w.file, w.index, p.name, Buffer(p, phase), true))
  {
    n := AloneIsSteps(w, i, c);
    FindPlayerAlone(w, i, c, w.procs[i], phase);
    w' := Steps(w, i, c, n);
  }

  /** The index is in order for this name: there is no hint, or it names a record. */
  ghost predicate HintOk(w: World, name: string) {
    name in w.index ==> w.index[name] == NOT_FOUND || 0 <= w.index[name] < |w.file|
  }

  /** An idle process whose buffer holds another name, and a free lock. */
  ghost predicate Ready(w: World, i: nat, c: Choice) {
    && i < |w.procs| && w.procs[i].pc == Idle && w.procs[i].player.name != c.name && c.name != ""
    && w.lock == {} && c.storable && UniqueNames(w.file) && HintOk(w, c.name)
  }

  /** The look-up at the beginning. */
  lemma {:induction false} FirstLook(w: World, i: nat, c: Choice) returns (n: nat, w': World)
    requires Ready(w, i, c)
    ensures w' == Steps(w, i, c, n) && |w'.procs| == |w.procs| && w'.file == w.file && w'.lock == {} && HintOk(w', c.name)
    ensures var p := w'.procs[i];
            && p.name == p.player.name == c.name
            && if Contains(w.file, c.name) then
                 && p.pc == Idle && Names(w.file, p.position, c.name)
                 && p.player == w.file[p.position] && (c.name, p.position) in w'.returned
               else p.pc == (if c.query then Idle else WaitLock) && p.position == NOT_FOUND && w'.returned == w.returned
  {
    var w1 := Step(w, i, c);
    var m;
    m, w' := LooksUp(w1, i, c, First);
    n := m + 1;
    var p := w1.procs[i];
    AnswerIs(w.file, w.index, c.name, p.player);
  }

  /** With unique names and a hint in order, `Lookup` finds the record exactly if there is one. */
  lemma {:induction false} AnswerIs(file: seq<Record>, index: map<string, int>, name: string, buffer: Record)
    requires UniqueNames(file) && (name in index ==> index[name] == NOT_FOUND || 0 <= index[name] < |file|)
    ensures var r := Lookup(true, file, index, name, buffer, true);
            && (r.position == NOT_FOUND <==> !Contains(file, name))
            && (r.position != NOT_FOUND ==> Names(file, r.position, name) && r.buffer == file[r.position])
            && r.buffer.name == name
            && (name in r.index ==> r.index[name] == NOT_FOUND || 0 <= r.index[name] < |file|)
  {
    NewPlayerKeepsNamesUnique(file, index, Record(name, 0), buffer);
    ScanIsFirst(file, name, 0);
  }

  /** From the wait for the lock to the end, for a name that no record has. */
  lemma {:induction false} AddsPlayer(w: World, i: nat, c: Choice) returns (n: nat, w': World)
    requires i < |w.procs| && w.procs[i].pc == WaitLock && w.procs[i].name == c.name && w.lock == {} && c.storable
    requires UniqueNames(w.file) && HintOk(w, c.name) && !Contains(w.file, c.name)
    ensures w' == Steps(w, i, c, n) && |w'.procs| == |w.procs| && w'.procs[i].pc == Idle && w'.lock == {}
    ensures w'.file == w.file + [Record(c.name, c.body)] && (c.name, |w.file|) in w'.returned
  {
    var w1 := Step(w, i, c);
    var m, w2 := LooksUp(w1, i, c, Recheck);
    AnswerIs(w.file, w.index, c.name, c.garbage);
    w' := Appends(w2, i, c);
    n := m + 4;
    assert Steps(w, i, c, m + 1) == w2;
    StepsAdd(w, i, c, m + 1, 3);
  }

  /** The three steps after the look-up under the lock. */
  lemma {:induction false} Appends(w: World, i: nat, c: Choice) returns (w': World)
    requires i < |w.procs| && w.procs[i].pc == SeekEnd && w.lock == {i}
    ensures w' == Steps(w, i, c, 3) && |w'.procs| == |w.procs| && w'.procs[i].pc == Idle && w'.lock == {}
    ensures w'.file == w.file + [w.procs[i].player] && (w.procs[i].name, |w.file|) in w'.returned
  {
    var w1 := Step(w, i, c);
    var w2 := Step(w1, i, c);
    w' := Step(w2, i, c);
    assert Steps(w', i, c, 0) == w';
    assert Steps(w2, i, c, 1) == w';
    assert Steps(w1, i, c, 2) == w';
  }

  /** Main result: a login or a query that nobody interrupts, by a process with another name in its buffer,
      ends after some steps: a known name gives its position, with its record in the buffer, and changes no
      record; a new name, in a login, gives the position behind the last record, where it has been added. */
  lemma {:induction false} LoginSucceeds(w: World, i: nat, c: Choice) returns (n: nat, w': World)
    requires Ready(w, i, c)
    ensures w' == Steps(w, i, c, n) && |w'.procs| == |w.procs| && w'.procs[i].pc == Idle && w'.lock == {}
    ensures if Contains(w.file, c.name) then
              && w'.file == w.file && Names(w.file, w'.procs[i].position, c.name)
              && w'.procs[i].player == w.file[w'.procs[i].position] && (c.name, w'.procs[i].position) in w'.returned
            else if c.query then w'.file == w.file && w'.procs[i].position == NOT_FOUND && w'.returned == w.returned
            else w'.file == w.file + [Record(c.name, c.body)] && (c.name, |w.file|) in w'.returned
  {
    n, w' := FirstLook(w, i, c);
    if !Contains(w.file, c.name) && !c.query {
      var m;
      var w1 := w';
      m, w' := AddsPlayer(w1, i, c);
      StepsAdd(w, i, c, n, m);
      n := n + m;
    }
  }
}
