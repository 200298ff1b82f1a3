/** The player file and its hint index (ntserv/db.c).

    The player file is a sequence of whole records.  The index is a hint: it may be stale,
    out of range or absent.  `Lookup` is what `findplayer` computes, and the lemmas say
    exactly when a hint can make it differ from a plain sequential scan. */
module PlayerDb {

  /** A `struct statentry`: the name, and everything else (password and statistics). */
  datatype Record = Record(name: string, body: int)

  const NOT_FOUND: int := -1
  const NEWPLAYER_EXISTS: int := -2

  /** What a call of `findplayer` leaves behind: its result, the caller's buffer, the index. */
  datatype Outcome = Outcome(position: int, buffer: Record, index: map<string, int>)

  /** The reference: the first record at or after `from` that carries `name`. */
  function Scan(file: seq<Record>, name: string, from: nat): (r: int)
    requires from <= |file|
    ensures r == NOT_FOUND || from <= r < |file|
    decreases |file| - from
  {
    if from == |file| then NOT_FOUND
    else if file[from].name == name then from
    else Scan(file, name, from + 1)
  }

  /** The last record a scan that misses reads into the caller's buffer. */
  function LastRead(file: seq<Record>, buffer: Record): Record {
    if file == [] then buffer else file[|file| - 1]
  }

  /** The hint for a name; -1 when there is none. */
  function Fetch(index: map<string, int>, name: string): int {
    if name in index then index[name] else NOT_FOUND
  }

  /** `lseek` then `read`: past the end nothing is read and the buffer keeps its contents;
      a negative offset makes `lseek` fail, so the read happens at the start of the file. */
  function ReadAt(file: seq<Record>, position: int, buffer: Record): Record {
    var at := if position < 0 then 0 else position;
    if at < |file| then file[at] else buffer
  }

  function Lookup(present: bool, file: seq<Record>, index: map<string, int>,
                  name: string, buffer: Record, exhaustive: bool): Outcome
  {
    if !present then Outcome(NOT_FOUND, buffer.(name := name), index)
    else
      var hint := Fetch(index, name);
      var seen := if hint == NOT_FOUND then buffer else ReadAt(file, hint, buffer);
      if hint != NOT_FOUND && seen.name == name then Outcome(hint, seen, index)
      else if !exhaustive then Outcome(NOT_FOUND, seen.(name := name), index)
      else
        var found := Scan(file, name, 0);
        if found == NOT_FOUND then Outcome(NOT_FOUND, LastRead(file, seen).(name := name), index)
        else Outcome(found, file[found], index[name := found])
  }

  ghost predicate UniqueNames(file: seq<Record>) {
    forall i, j :: 0 <= i < j < |file| ==> file[i].name != file[j].name
  }

  ghost predicate Contains(file: seq<Record>, name: string) {
    exists i :: 0 <= i < |file| && file[i].name == name
  }

  /** The hints that can mislead `findplayer`:
      - past the end of the file, while the caller's buffer already holds the name;
      - negative, while the first record (or, in an empty file, the buffer) holds the name;
      - in range and matching, while an earlier record has the same name. */
  ghost predicate Misleading(file: seq<Record>, index: map<string, int>, name: string, buffer: Record) {
    var hint := Fetch(index, name);
    && hint != NOT_FOUND
    && (|| (hint >= |file| && buffer.name == name)
        || (hint < 0 && (if file == [] then buffer.name else file[0].name) == name)
        || (0 <= hint < |file| && file[hint].name == name && Contains(file[..hint], name)))
  }

  /** A scan finds the first carrier of the name, and misses exactly when there is none. */
  lemma {:induction false} ScanIsFirst(file: seq<Record>, name: string, from: nat)
    requires from <= |file|
    ensures var r := Scan(file, name, from);
            && (r == NOT_FOUND <==> forall k :: from <= k < |file| ==> file[k].name != name)
            && (r != NOT_FOUND ==> file[r].name == name && forall k :: from <= k < r ==> file[k].name != name)
    decreases |file| - from
  {
    if from < |file| && file[from].name != name {
      ScanIsFirst(file, name, from + 1);
    }
  }

  /** Main result: the hint never changes the answer, except when it is misleading. */
  lemma {:induction false} HintAgreesWithScan(file: seq<Record>, index: map<string, int>, name: string, buffer: Record)
    ensures Lookup(true, file, index, name, buffer, true).position == Scan(file, name, 0)
            <==> !Misleading(file, index, name, buffer)
  {
    ScanIsFirst(file, name, 0);
    var hint := Fetch(index, name);
    if 0 <= hint < |file| && file[hint].name == name {
      if Contains(file[..hint], name) {
        var i :| 0 <= i < hint && file[..hint][i].name == name;
        assert file[i].name == name;
      } else {
        assert forall k :: 0 <= k < hint ==> file[..hint][k].name != name;
        assert forall k :: 0 <= k < hint ==> file[k].name == file[..hint][k].name;
      }
    }
  }

  /** However stale the index, with non-negative hints, unique names and a buffer that does
      not already hold the name, the answer is the scan's and the buffer holds that record. */
  lemma {:induction false} StaleIndexIsHarmless(file: seq<Record>, index: map<string, int>, name: string, buffer: Record)
    requires UniqueNames(file)
    requires name in index ==> index[name] >= 0
    requires buffer.name != name
    ensures var r := Lookup(true, file, index, name, buffer, true);
            && r.position == Scan(file, name, 0)
            && (r.position != NOT_FOUND ==> r.buffer == file[r.position])
            && r.buffer.name == name
  {
    HintAgreesWithScan(file, index, name, buffer);
    ScanIsFirst(file, name, 0);
  }

  /** A hit repairs the index: the next lookup of that name needs no scan, whatever the buffer. */
  lemma {:induction false} HitRepairsIndex(file: seq<Record>, index: map<string, int>, name: string, buffer: Record, next: Record)
    requires !Misleading(file, index, name, buffer)
    requires Contains(file, name)
    ensures var r := Lookup(true, file, index, name, buffer, true);
            && 0 <= r.position < |file|
            && Lookup(true, file, r.index, name, next, false) == Outcome(r.position, file[r.position], r.index)
            && file[r.position].name == name
  {
    HintAgreesWithScan(file, index, name, buffer);
    ScanIsFirst(file, name, 0);
  }

  /** Record k is the first with the name. */
  ghost predicate FirstNamed(file: seq<Record>, name: string, k: int) {
    0 <= k < |file| && file[k].name == name && forall i :: 0 <= i < k ==> file[i].name != name
  }

  /** What a look-up answers in every case: without a file, nothing; else the position that the hint names
      if the name is in the buffer after reading there; else, if all records may be read, the first record
      with the name, which the index then points at; else nothing.  Without an answer the buffer gets the
      name, and the index stays. */
  lemma {:induction false} LookupExactly(present: bool, file: seq<Record>, index: map<string, int>, name: string,
                                         buffer: Record, exhaustive: bool)
    ensures var r := Lookup(present, file, index, name, buffer, exhaustive);
            var hinted := present && name in index && index[name] != -1;
            var at := if hinted && index[name] > 0 then index[name] else 0;
            var seen := if hinted && at < |file| then file[at] else buffer;
            if hinted && seen.name == name then r == Outcome(index[name], seen, index)
            else if present && exhaustive && Contains(file, name) then
              FirstNamed(file, name, r.position) && r.buffer == file[r.position] && r.index == index[name := r.position]
            else r.position == -1 && r.buffer.name == name && r.index == index
  {
    if present { ScanIsFirst(file, name, 0); }
  }

  /** Entries for other names are never touched, and a miss leaves the index alone. */
  lemma {:induction false} LookupTouchesOneEntry(present: bool, file: seq<Record>, index: map<string, int>, name: string,
                              buffer: Record, exhaustive: bool, other: string)
    requires other != name
    ensures var r := Lookup(present, file, index, name, buffer, exhaustive);
            && Fetch(r.index, other) == Fetch(index, other)
            && (r.position == NOT_FOUND ==> r.index == index)
  {
    if present { ScanIsFirst(file, name, 0); }
  }

  /** The player file and the index, as the processes share them. */
  class Database {
    var present: bool
    var file: seq<Record>
    var index: map<string, int>

    constructor ()
      ensures !present && file == [] && index == map[]
    {
      present, file, index := false, [], map[];
    }

    /** `findplayer`: hint first, then the sequential scan. */
    method FindPlayer(name: string, buffer: Record, exhaustive: bool) returns (position: int, out: Record)
      modifies this`index
      ensures Outcome(position, out, index) == Lookup(present, file, old(index), name, buffer, exhaustive)
    {
      out := buffer;
      if !present {
        return NOT_FOUND, out.(name := name);
      }
      position := if name in index then index[name] else NOT_FOUND;
      if position != NOT_FOUND {
        var at := if position < 0 then 0 else position;
        if at < |file| {
          out := file[at];
        }
        if out.name == name {
          return position, out;
        }
      }
      if exhaustive {
        ghost var seen := out;
        position := 0;
        while position < |file|
          invariant 0 <= position <= |file|
          invariant Scan(file, name, 0) == Scan(file, name, position)
          invariant out == LastRead(file[..position], seen)
          invariant index == old(index)
        {
          out := file[position];
          if out.name == name {
            index := index[name := position];
            return position, out;
          }
          assert file[..position + 1] == file[..position] + [file[position]];
          position := position + 1;
        }
        assert file[..position] == file;
      }
      return NOT_FOUND, out.(name := name);
    }

    /** `newplayer`: re-check under the lock, then append.  `existing` is the callee's own,
        uninitialised buffer. */
    method NewPlayer(player: Record, existing: Record) returns (position: int)
      modifies this
      ensures index == Lookup(old(present), old(file), old(index), player.name, existing, true).index
      ensures var known := Lookup(old(present), old(file), old(index), player.name, existing, true).position != NOT_FOUND;
              if known then position == NEWPLAYER_EXISTS && file == old(file) && present == old(present)
              else position == |old(file)| && file == old(file) + [player] && present
    {
      var at, _ := FindPlayer(player.name, existing, true);
      if at != NOT_FOUND {
        return NEWPLAYER_EXISTS;
      }
      present := true;
      position := |file|;
      file := file + [player];
    }
  }

  /** With unique names and hints inside the file, one `newplayer` call adds the name exactly
      when no record has it, whatever its uninitialised buffer holds, and keeps names unique. */
  lemma {:induction false} NewPlayerKeepsNamesUnique(file: seq<Record>, index: map<string, int>, player: Record, existing: Record)
    requires UniqueNames(file)
    requires player.name in index ==> index[player.name] == NOT_FOUND || 0 <= index[player.name] < |file|
    ensures Lookup(true, file, index, player.name, existing, true).position == NOT_FOUND
            <==> !Contains(file, player.name)
    ensures !Contains(file, player.name) ==> UniqueNames(file + [player])
  {
    HintAgreesWithScan(file, index, player.name, existing);
    ScanIsFirst(file, player.name, 0);
    var hint := Fetch(index, player.name);
    if 0 <= hint < |file| && Contains(file[..hint], player.name) {
      var i :| 0 <= i < hint && file[..hint][i].name == player.name;
      assert file[i].name == player.name;
    }
  }

  /** The stale-hint failure, concretely: an out-of-range hint and a buffer that already holds
      the name make `findplayer` return a position no record has. */
  lemma {:induction false} OutOfRangeHintMisleads()
    ensures Lookup(true, [], map["Kirk" := 5], "Kirk", Record("Kirk", 0), true).position == 5
  {
    assert Fetch(map["Kirk" := 5], "Kirk") == 5;
  }
}
