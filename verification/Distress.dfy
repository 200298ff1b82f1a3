/** The conditionals of distress messages (ntserv/distress.c, condmacro and skipmacro): `%{ … %}`
    and `%{ … %! … %}`, decided by the character written last. */
module Distress {

  const MAXMACLEN: nat := 85

  /** The output: `buf` is bufb, whose first `n` characters have been written. */
  datatype Out = Out(buf: string, n: nat)

  predicate Room(b: Out) {
    b.n <= MAXMACLEN <= |b.buf|
  }

  function Put(b: Out, c: char): Out
    requires b.n < |b.buf|
  {
    Out(b.buf[b.n := c], b.n + 1)
  }

  // ---- The two scanners, as functions of the text that is left ----

  /** skipmacro, one character a step; `state` is set after a percent sign.  After a nested
      conditional the state is still set. */
  function Skip(s: string, state: bool): (r: string)
    ensures |r| <= |s|
    decreases |s|
  {
    if s == "" then s
    else if !state then Skip(s[1..], s[0] == '%')
    else if s[0] == '{' then Skip(Skip(s[1..], false), true)
    else if s[0] == '}' then s[1..]
    else if s[0] == '!' || s[0] == '%' then Skip(s[1..], false)
    else Skip(s[1..], false)
  }

  /** A character copied if `active` holds. */
  function Copied(b: Out, c: char, active: bool): Out
    requires b.n < |b.buf|
  {
    if active then Put(b, c) else b
  }

  /** The test of a conditional: the last character written, and true if there is none. */
  function Test(b: Out): bool
    requires Room(b)
  {
    b.n == 0 || b.buf[b.n - 1] != '0'
  }

  function Popped(b: Out): Out {
    if b.n > 0 then b.(n := b.n - 1) else b
  }

  /** A skipped conditional: the test is put back, or, if there was none, one character appears. */
  function Unpopped(b: Out): Out {
    if b.n > 0 then b else b.(n := 1)
  }

  /** condmacro, one character a step: the text left and the output at its return. */
  function Cond(s: string, b: Out, flag: bool, active: bool, state: bool): (r: (string, Out))
    requires Room(b)
    ensures |r.0| <= |s| && Room(r.1) && |r.1.buf| == |b.buf|
    decreases |s|
  {
    if s == "" || b.n >= MAXMACLEN then (s, b)
    else if state then Escape(s, b, flag, active)
    else if s[0] == '%' then Cond(s[1..], b, flag, active, true)
    else Cond(s[1..], Copied(b, s[0], active), flag, active, false)
  }

  /** The character after a percent sign. */
  function Escape(s: string, b: Out, flag: bool, active: bool): (r: (string, Out))
    requires Room(b) && s != "" && b.n < MAXMACLEN
    ensures |r.0| <= |s| && Room(r.1) && |r.1.buf| == |b.buf|
    decreases |s|, 0
  {
    if s[0] == '}' then (s[1..], b)
    else if s[0] == '{' then
      if active then
        var inner := Cond(s[1..], Popped(b), Test(b), Test(b), false);
        Cond(inner.0, inner.1, flag, active, false)
      else Cond(Skip(s[1..], false), Unpopped(b), flag, active, false)
    else if s[0] == '!' then Cond(s[1..], b, flag, !flag, false)
    else if s[0] == '*' then
      if active then (s[1..], Out(b.buf[0 := '\0'], 0)) else Cond(s[1..], b, flag, active, false)
    else if s[0] == '%' then Cond(s[1..], Copied(b, '%', active), flag, active, false)
    else if s[1..] == "" then ("", Copied(b, '\0', active))
    else Cond(s[1..], b, flag, active, false)
  }

  // ---- The two scanners in place ----

  class Macro {
    const bufa: string       // the text, without its terminator; nothing is read past its end
    const bufb: array<char>
    var inda: nat
    var indb: nat

    ghost predicate Valid()
      reads this, bufb
    {
      inda <= |bufa| && Room(Written())
    }

    ghost function Written(): Out
      reads this, bufb
    {
      Out(bufb[..], indb)
    }

    constructor (text: string, size: nat)
      requires size >= MAXMACLEN
      ensures Valid() && fresh(bufb) && bufa == text && inda == indb == 0
    {
      bufa := text;
      bufb := new char[size](_ => '\0');
      inda, indb := 0, 0;
    }

    method CondMacro(flag: bool)
      requires Valid()
      modifies this, bufb
      ensures Valid() && inda >= old(inda)
      ensures (bufa[inda..], Written()) == Cond(old(bufa[inda..]), old(Written()), flag, flag, false)
      decreases |bufa| - inda, 0
    {
      if indb >= MAXMACLEN { return; }
      var active, state := flag, false;
      ghost var goal := Cond(bufa[inda..], Written(), flag, flag, false);
      while inda < |bufa| && indb < MAXMACLEN
        invariant Valid() && inda >= old(inda)
        invariant state ==> inda > old(inda)
        invariant Cond(bufa[inda..], Written(), flag, active, state) == goal
        decreases |bufa| - inda
      {
        assert bufa[inda..][1..] == bufa[inda + 1..];
        if state {
          var done;
          done, active := AfterPercent(flag, active);
          if done { return; }
          state := false;
          continue;
        }
        if bufa[inda] == '%' {
          state := true;
          inda := inda + 1;
          continue;
        }
        if active { Append(bufa[inda]); }
        inda := inda + 1;
      }
    }

    /** The character after a percent sign; true if the scan of this level is over.  An unknown
        one is dropped, and the scan goes on with the character after it. */
    method AfterPercent(flag: bool, active: bool) returns (done: bool, active': bool)
      requires Valid() && inda < |bufa| && indb < MAXMACLEN
      modifies this, bufb
      ensures Valid() && inda > old(inda)
      ensures Escape(old(bufa[inda..]), old(Written()), flag, active)
           == if done then (bufa[inda..], Written()) else Cond(bufa[inda..], Written(), flag, active', false)
      decreases |bufa| - inda, 0
    {
      done, active' := false, active;
      var c := bufa[inda];
      assert bufa[inda..][0] == c && bufa[inda..][1..] == bufa[inda + 1..];
      inda := inda + 1;
      match c
      case '}' => done := true;
      case '{' => OpenConditional(active);
      case '!' => active' := !flag;
      case '*' =>
        if active {
          bufb[0] := '\0';
          indb := 0;
          done := true;
        }
      case '%' =>
        if active { Append('%'); }
      case _ =>
        if inda == |bufa| {
          if active { Append('\0'); }
          done := true;
        }
    }

    method Append(c: char)
      requires indb < bufb.Length
      modifies this`indb, bufb
      ensures Written() == Put(old(Written()), c)
    {
      bufb[indb] := c;
      indb := indb + 1;
    }

    /** After `%{`: run the conditional, or skip it. */
    method OpenConditional(active: bool)
      requires Valid() && indb < MAXMACLEN && inda > 0
      modifies this, bufb
      ensures Valid() && inda >= old(inda)
      ensures (bufa[inda..], Written()) ==
              if active then Cond(old(bufa[inda..]), Popped(old(Written())), Test(old(Written())), Test(old(Written())), false)
              else (Skip(old(bufa[inda..]), false), Unpopped(old(Written())))
      decreases |bufa| - inda, 1
    {
      var newflag := true;
      if indb > 0 {
        indb := indb - 1;
        newflag := bufb[indb] != '0';
      }
      if active {
        CondMacro(newflag);
      } else {
        indb := indb + 1;
        inda := SkipMacro(inda);
      }
    }

    method SkipMacro(start: nat) returns (index: nat)
      requires start <= |bufa|
      ensures start <= index <= |bufa|
      ensures start > 0 || bufa == "" ==> bufa[index..] == Skip(bufa[start..], false)
      decreases |bufa| - start
    {
      index := start;
      if index == 0 && bufa != "" { index := 1; }
      var state := false;
      ghost var goal := Skip(bufa[index..], false);
      while index < |bufa|
        invariant start <= index <= |bufa| && (start == 0 && bufa != "" ==> index > 0)
        invariant Skip(bufa[index..], state) == goal
        decreases |bufa| - index
      {
        ghost var s := bufa[index..];
        assert s[0] == bufa[index] && s[1..] == bufa[index + 1..];
        if state {
          var c := bufa[index];
          index := index + 1;
          if c == '{' {
            index := SkipMacro(index);
            continue;
          }
          if c == '}' { return; }
          if c == '!' || c == '%' {
            state := false;
            continue;
          }
          if index == |bufa| { return; }
          assert s[1..][0] == bufa[index] && s[1..][1..] == bufa[index + 1..];
        }
        if bufa[index] == '%' {
          state := true;
          index := index + 1;
          continue;
        }
        state := false;
        index := index + 1;
      }
    }
  }
}
