/** condmacro writes what the evaluator of the tree says: for all text whose skipped conditionals
    skipmacro passes over, and from empty output under an exact condition on the text. */
module DistressText {
  import opened Distress
  import opened DistressTree
  import opened DistressSkip

  // ---- Where condmacro can go wrong ----

  /** The conditionals of this text can be skipped. */
  predicate Skippable(t: Text) {
    match t
    case End => true
    case Then(item, rest) => Passed(item) && Skippable(rest)
  }

  /** Every conditional that may have to be skipped can be. */
  predicate Safe(t: Text) {
    match t
    case End => true
    case Then(item, rest) =>
      && (item.When? ==> Safe(item.yes) && Skippable(item.yes))
      && (item.Choice? ==> Safe(item.yes) && Safe(item.no) && Skippable(item.yes) && Skippable(item.no))
      && Safe(rest)
  }

  /** While this text is evaluated, there is always room for one more character, and something is
      written whenever a part with conditionals in it is skipped. */
  predicate Smooth(t: Text, out: string) {
    match t
    case End => |out| < MAXMACLEN
    case Then(item, rest) => |out| < MAXMACLEN && SmoothItem(item, out) && Smooth(rest, EvalItem(item, out))
  }

  predicate SmoothItem(item: Item, out: string) {
    match item
    case Lit(_) => true
    case Percent => true
    case When(yes) => if Holds(out) then Smooth(yes, WithoutTest(out)) else Skips(yes, WithoutTest(out))
    case Choice(yes, no) =>
      if Holds(out) then Smooth(yes, WithoutTest(out)) && Skips(no, Eval(yes, WithoutTest(out)))
      else Skips(yes, WithoutTest(out)) && Smooth(no, WithoutTest(out))
  }

  predicate Skips(t: Text, out: string) {
    HasConditional(t) ==> out != ""
  }

  // ---- Steps of condmacro ----

  lemma {:induction false} StepLit(c: char, s: string, b: Out, flag: bool, active: bool)
    requires Room(b) && b.n < MAXMACLEN && c != '%'
    ensures Cond([c] + s, b, flag, active, false) == Cond(s, Copied(b, c, active), flag, active, false)
  {
    assert ([c] + s)[1..] == s;
  }

  lemma {:induction false} StepEscape(c: char, s: string, b: Out, flag: bool, active: bool)
    requires Room(b) && b.n < MAXMACLEN
    ensures Cond(['%', c] + s, b, flag, active, false) == Escape([c] + s, b, flag, active)
  {
    assert (['%', c] + s)[1..] == [c] + s;
  }

  lemma {:induction false} StepPercent(s: string, b: Out, flag: bool, active: bool)
    requires Room(b) && b.n < MAXMACLEN
    ensures Cond("%%" + s, b, flag, active, false) == Cond(s, Copied(b, '%', active), flag, active, false)
  {
    StepEscape('%', s, b, flag, active);
    assert (['%'] + s)[1..] == s;
  }

  lemma {:induction false} StepBang(s: string, b: Out, flag: bool, active: bool)
    requires Room(b) && b.n < MAXMACLEN
    ensures Cond("%!" + s, b, flag, active, false) == Cond(s, b, flag, !flag, false)
  {
    StepEscape('!', s, b, flag, active);
    assert (['!'] + s)[1..] == s;
  }

  lemma {:induction false} StepClose(s: string, b: Out, flag: bool, active: bool)
    requires Room(b) && b.n < MAXMACLEN
    ensures Cond("%}" + s, b, flag, active, false) == (s, b)
  {
    StepEscape('}', s, b, flag, active);
    assert (['}'] + s)[1..] == s;
  }

  lemma {:induction false} StepOpen(s: string, b: Out, flag: bool, active: bool)
    requires Room(b) && b.n < MAXMACLEN
    ensures !active ==> Cond("%{" + s, b, flag, active, false) == Cond(Skip(s, false), Unpopped(b), flag, active, false)
    ensures active ==>
      var inner := Cond(s, Popped(b), Test(b), Test(b), false);
      Cond("%{" + s, b, flag, active, false) == Cond(inner.0, inner.1, flag, active, false)
  {
    StepEscape('{', s, b, flag, active);
    assert (['{'] + s)[1..] == s;
  }

  // ---- Parts that are left out, and parts that are written ----

  /** Nothing is written for a part that is left out, except that a conditional in it makes a
      character appear if there was none. */
  lemma {:induction false} PartLeftOut(t: Text, s: string, b: Out, flag: bool)
    requires Plain(t) && Skippable(t) && Room(b) && b.n < MAXMACLEN
    ensures var b' := if HasConditional(t) then Unpopped(b) else b;
            Cond(Print(t) + s, b, flag, false, false) == Cond(s, b', flag, false, false)
  {
    match t
    case End => assert Print(t) + s == s;
    case Then(item, rest) =>
      var more := Print(rest) + s;
      assert Print(t) + s == PrintItem(item) + more;
      match item
      case Lit(c) =>
        StepLit(c, more, b, flag, false);
        PartLeftOut(rest, s, b, flag);
      case Percent =>
        StepPercent(more, b, flag, false);
        PartLeftOut(rest, s, b, flag);
      case _ =>
        PrintSplits(item, more);
        StepOpen(Body(item) + more, b, flag, false);
        SkipPassesExactly(item, more);
        PartLeftOut(rest, s, Unpopped(b), flag);
  }

  function Shown(b: Out): string
    requires Room(b)
  {
    b.buf[..b.n]
  }

  lemma {:induction false} TestIsHolds(b: Out)
    requires Room(b)
    ensures Test(b) == Holds(Shown(b)) && Room(Popped(b)) && Shown(Popped(b)) == WithoutTest(Shown(b))
  {
  }

  lemma {:induction false} PartWritten(t: Text, s: string, b: Out, flag: bool) returns (b': Out)
    requires Plain(t) && Safe(t) && Room(b) && Smooth(t, Shown(b))
    ensures Room(b') && b'.n < MAXMACLEN && |b'.buf| == |b.buf| && Shown(b') == Eval(t, Shown(b))
    ensures Cond(Print(t) + s, b, flag, true, false) == Cond(s, b', flag, true, false)
    decreases t
  {
    match t
    case End =>
      assert Print(t) + s == s;
      b' := b;
    case Then(item, rest) =>
      var more := Print(rest) + s;
      assert Print(t) + s == PrintItem(item) + more;
      var b1 := ItemWritten(item, more, b, flag);
      b' := PartWritten(rest, s, b1, flag);
  }

  predicate SafeItem(item: Item) {
    && (item.When? ==> Safe(item.yes) && Skippable(item.yes))
    && (item.Choice? ==> Safe(item.yes) && Safe(item.no) && Skippable(item.yes) && Skippable(item.no))
  }

  lemma {:induction false} ItemWritten(item: Item, more: string, b: Out, flag: bool) returns (b': Out)
    requires PlainItem(item) && SafeItem(item) && Room(b) && b.n < MAXMACLEN && SmoothItem(item, Shown(b))
    ensures Room(b') && |b'.buf| == |b.buf| && Shown(b') == EvalItem(item, Shown(b))
    ensures Cond(PrintItem(item) + more, b, flag, true, false) == Cond(more, b', flag, true, false)
    decreases item
  {
    match item
    case Lit(c) =>
      b' := Put(b, c);
      StepLit(c, more, b, flag, true);
    case Percent =>
      b' := Put(b, '%');
      StepPercent(more, b, flag, true);
    case _ =>
      PrintSplits(item, more);
      StepOpen(Body(item) + more, b, flag, true);
      TestIsHolds(b);
      b' := BodyWritten(item, more, Popped(b), Test(b), Shown(b));
  }

  /** A conditional whose test has been taken from the output. */
  lemma {:induction false} BodyWritten(item: Item, more: string, b: Out, flag: bool, out: string) returns (b': Out)
    requires Conditional(item) && PlainItem(item) && SafeItem(item) && Room(b) && b.n < MAXMACLEN
    requires SmoothItem(item, out) && flag == Holds(out) && Shown(b) == WithoutTest(out)
    ensures Room(b') && |b'.buf| == |b.buf| && Shown(b') == EvalItem(item, out)
    ensures Cond(Body(item) + more, b, flag, flag, false) == (more, b')
    decreases item, 0
  {
    var last := "%}" + more;
    match item
    case When(yes) =>
      BodySplits(item, more);
      if flag {
        b' := PartWritten(yes, last, b, flag);
      } else {
        b' := b;
        PartLeftOut(yes, last, b, flag);
      }
      StepClose(more, b', flag, flag);
    case Choice(yes, no) =>
      var second := "%!" + (Print(no) + last);
      BodySplits(item, more);
      if flag {
        b' := PartWritten(yes, second, b, flag);
        StepBang(Print(no) + last, b', flag, true);
        PartLeftOut(no, last, b', flag);
      } else {
        PartLeftOut(yes, second, b, flag);
        StepBang(Print(no) + last, b, flag, false);
        b' := PartWritten(no, last, b, flag);
      }
      StepClose(more, b', flag, !flag);
  }

  /** Main result: on printed text whose skipped conditionals are safe, condmacro writes exactly
      what the evaluator says. */
  lemma {:induction false} CondMacroIsEval(t: Text, b: Out)
    requires Plain(t) && Safe(t) && Room(b) && Smooth(t, Shown(b))
    ensures var r := Cond(Print(t), b, true, true, false);
            r.0 == "" && Shown(r.1) == Eval(t, Shown(b))
  {
    var b' := PartWritten(t, "", b, true);
    assert Print(t) + "" == Print(t);
  }

  // ---- Text nested at most two deep ----

  lemma {:induction false} FlatIsWalked(t: Text, depth: nat)
    requires Depth(t) == 0
    ensures Walk(t, At(depth, false)) == At(depth, false)
  {
    if t.Then? { FlatIsWalked(t.tail, depth); }
  }

  lemma {:induction false} FlatIsSafe(t: Text)
    requires Depth(t) == 0
    ensures Skippable(t) && Safe(t)
  {
    if t.Then? { FlatIsSafe(t.tail); }
  }

  lemma {:induction false} OneDeepIsSkippable(t: Text)
    requires Depth(t) <= 1
    ensures Skippable(t) && Safe(t)
  {
    if t.Then? {
      OneDeepIsSkippable(t.tail);
      match t.head
      case When(yes) =>
        FlatIsWalked(yes, 0);
        FlatIsSafe(yes);
      case Choice(yes, no) =>
        FlatIsWalked(yes, 0);
        FlatIsWalked(no, 0);
        FlatIsSafe(yes);
        FlatIsSafe(no);
      case _ =>
    }
  }

  lemma {:induction false} TwoDeepIsSafe(t: Text)
    requires Depth(t) <= 2
    ensures Safe(t)
  {
    if t.Then? {
      TwoDeepIsSafe(t.tail);
      match t.head
      case When(yes) => OneDeepIsSkippable(yes);
      case Choice(yes, no) =>
        OneDeepIsSkippable(yes);
        OneDeepIsSkippable(no);
      case _ =>
    }
  }

  /** As testmacro writes it: a digit, the result of the test, stands before each conditional. */
  predicate Tested(t: Text, digitBefore: bool) {
    match t
    case End => true
    case Then(item, rest) =>
      && TestedItem(item, digitBefore)
      && Tested(rest, item.Lit? && (item.c == '0' || item.c == '1'))
  }

  predicate TestedItem(item: Item, digitBefore: bool) {
    match item
    case Lit(_) => true
    case Percent => true
    case When(yes) => digitBefore && Tested(yes, false)
    case Choice(yes, no) => digitBefore && Tested(yes, false) && Tested(no, false)
  }

  /** The characters a conditional takes away at most. */
  function Taken(digitBefore: bool): nat {
    if digitBefore then 1 else 0
  }

  /** With something written before it, tested text never takes the last character away. */
  lemma {:induction false} TestedIsSmooth(t: Text, out: string, digitBefore: bool)
    requires Tested(t, digitBefore) && |out| > Taken(digitBefore) && |out| + |Print(t)| < MAXMACLEN
    ensures Smooth(t, out) && |out| - Taken(digitBefore) <= |Eval(t, out)| <= |out| + |Print(t)|
  {
    match t
    case End =>
    case Then(item, rest) =>
      TestedItemIsSmooth(item, out, digitBefore);
      TestedIsSmooth(rest, EvalItem(item, out), item.Lit? && (item.c == '0' || item.c == '1'));
  }

  lemma {:induction false} TestedItemIsSmooth(item: Item, out: string, digitBefore: bool)
    requires TestedItem(item, digitBefore) && |out| > Taken(digitBefore) && |out| + |PrintItem(item)| < MAXMACLEN
    ensures SmoothItem(item, out)
    ensures |EvalItem(item, out)| <= |out| + |PrintItem(item)|
    ensures |EvalItem(item, out)| >= if Conditional(item) then |out| - 1 else |out| + 1
  {
    match item
    case Lit(_) =>
    case Percent =>
    case When(yes) => TestedIsSmooth(yes, WithoutTest(out), false);
    case Choice(yes, no) =>
      TestedIsSmooth(yes, WithoutTest(out), false);
      TestedIsSmooth(no, WithoutTest(out), false);
  }

  /** Main result: for conditionals nested at most two deep, each with its test, some output already
      written and room for the text, condmacro writes exactly what the evaluator says. */
  lemma {:induction false} TwoDeepIsExact(t: Text, b: Out)
    requires Plain(t) && Depth(t) <= 2 && Tested(t, false) && Room(b)
    requires 0 < b.n && b.n + |Print(t)| < MAXMACLEN
    ensures var r := Cond(Print(t), b, true, true, false);
            r.0 == "" && Shown(r.1) == Eval(t, Shown(b))
  {
    TwoDeepIsSafe(t);
    TestedIsSmooth(t, Shown(b), false);
    CondMacroIsEval(t, b);
  }

  // ---- A conditional with its test ----

  function Tried(c: char, yes: Text, rest: Text): Text {
    Then(Lit(c), Then(When(yes), rest))
  }

  lemma {:induction false} PrintTried(c: char, yes: Text, rest: Text, s: string)
    ensures Print(Tried(c, yes, rest)) + s == [c] + ("%{" + (Print(yes) + ("%}" + (Print(rest) + s))))
  {
    assert Print(Tried(c, yes, rest)) == [c] + (PrintItem(When(yes)) + Print(rest));
    Regroup([c], Print(yes), Print(rest), s);
  }

  lemma {:induction false} Regroup(c: string, p: string, q: string, s: string)
    ensures c + (("%{" + p + "%}") + q) + s == c + ("%{" + (p + ("%}" + (q + s))))
  {
    Assoc(c, ("%{" + p + "%}") + q, s);
    Assoc("%{" + p + "%}", q, s);
    Assoc("%{" + p, "%}", q + s);
    Assoc("%{", p, "%}" + (q + s));
  }

  lemma {:induction false} Assoc(a: string, b: string, c: string)
    ensures (a + b) + c == a + (b + c)
  {
  }

  lemma {:induction false} PrintLit(c: char, s: string)
    ensures Print(Then(Lit(c), End)) + s == [c] + s
  {
    assert Print(Then(Lit(c), End)) == [c] + Print(End);
  }

  lemma {:induction false} EvalTried(c: char, yes: Text, rest: Text, out: string)
    ensures Eval(Tried(c, yes, rest), out) == Eval(rest, if c != '0' then Eval(yes, out) else out)
  {
    assert WithoutTest(out + [c]) == out;
    assert EvalItem(When(yes), out + [c]) == if c != '0' then Eval(yes, out) else out;
    assert Eval(Tried(c, yes, rest), out) == Eval(Then(When(yes), rest), out + [c]);
  }

  // ---- A part that is left out, exactly ----

  /** `r` is an end of `s`. */
  ghost predicate EndOf(r: string, s: string) {
    |r| <= |s| && r == s[|s| - |r|..]
  }

  lemma {:induction false} SkipLeavesEnd(s: string, state: bool)
    ensures EndOf(Skip(s, state), s)
    decreases |s|
  {
    if s != "" {
      var rest := s[1..];
      if state && s[0] == '{' {
        SkipLeavesEnd(rest, false);
        SkipLeavesEnd(Skip(rest, false), true);
      } else if !(state && s[0] == '}') {
        SkipLeavesEnd(rest, !state && s[0] == '%');
      }
    }
  }

  lemma {:induction false} LeftIsEnd(s: string, p: Place)
    requires p.At?
    ensures EndOf(Left(s, p), s)
    decreases p.depth
  {
    SkipLeavesEnd(s, p.hot);
    if p.depth > 0 { LeftIsEnd(Skip(s, p.hot), At(p.depth - 1, true)); }
  }

  /** A conditional that skipmacro does not pass over takes the closing behind the text that
      follows it, too. */
  lemma {:induction false} ClosingTaken(item: Item, rest: Text, s: string) returns (r: string)
    requires Conditional(item) && PlainItem(item) && BracelessItem(item) && ApartItem(item) && !Passed(item)
    requires Plain(rest) && Braceless(rest) && Apart(rest, true)
    ensures r == Skip(Body(item) + (Print(rest) + ("%}" + s)), false) && EndOf(r, s)
  {
    var more := Print(rest) + ("%}" + s);
    r := Skip(Body(item) + more, false);
    assert r == Left(Body(item) + more, START);
    var p := WalkBodyKeepsDepth(item, 0);
    WalkBodyLeads(item, more, START);
    CloseLeads(more, p);
    var p1 := WalkKeepsDepth(rest, Close(p), true, true);
    WalkLeads(rest, "%}" + s, Close(p));
    assert r == Left("%}" + s, p1);
    CloseLeads(s, p1);
    if p1 != START { LeftIsEnd(s, Close(p1)); }
  }

  /** How condmacro leaves out a part that ends with the closing of its conditional. */
  lemma {:induction false} PartScanned(t: Text, s: string, b: Out, flag: bool, after: bool) returns (r: string)
    requires Plain(t) && Braceless(t) && Apart(t, after) && Room(b) && 0 < b.n < MAXMACLEN
    ensures if Skippable(t) then r == "%}" + s else EndOf(r, s)
    ensures Cond(Print(t) + ("%}" + s), b, flag, false, false) == Cond(r, b, flag, false, false)
  {
    match t
    case End =>
      r := "%}" + s;
      assert Print(t) + ("%}" + s) == r;
    case Then(item, rest) =>
      var more := Print(rest) + ("%}" + s);
      assert Print(t) + ("%}" + s) == PrintItem(item) + more;
      if Conditional(item) {
        PrintSplits(item, more);
        StepOpen(Body(item) + more, b, flag, false);
      }
      if Passed(item) {
        r := PartScanned(rest, s, b, flag, StillAfter(item, after));
        match item
        case Lit(c) => StepLit(c, more, b, flag, false);
        case Percent => StepPercent(more, b, flag, false);
        case _ => SkipPassesExactly(item, more);
      } else {
        r := ClosingTaken(item, rest, s);
      }
  }

  lemma {:induction false} CondShrinks(s: string, b: Out, flag: bool, active: bool)
    requires Room(b) && b.n < MAXMACLEN && s != ""
    ensures |Cond(s, b, flag, active, false).0| < |s|
  {
  }

  /** Main result: with something written before, and in text without braces and without
      neighbouring conditionals, a part that is left out ends at its own closing exactly if all
      its conditionals can be skipped. */
  lemma {:induction false} PartLeftOutExactly(t: Text, s: string, b: Out, flag: bool)
    requires Plain(t) && Braceless(t) && Apart(t, false) && Room(b) && 0 < b.n < MAXMACLEN && s != ""
    ensures Cond(Print(t) + ("%}" + s), b, flag, false, false) == (s, b) <==> Skippable(t)
  {
    var r := PartScanned(t, s, b, flag, false);
    if Skippable(t) {
      StepClose(s, b, flag, false);
    } else if r != "" {
      CondShrinks(r, b, flag, false);
    }
  }

  /** The conditionals of this text hold no conditional that skipmacro gets wrong, by what follows it. */
  predicate AllFollowedInside(t: Text) {
    match t
    case End => true
    case Then(item, rest) => FollowedInside(item) && AllFollowedInside(rest)
  }

  lemma {:induction false} SkippableIsFollowed(t: Text, after: bool)
    requires Braceless(t) && Apart(t, after)
    ensures Skippable(t) <==> AllFollowedInside(t)
  {
    if t.Then? {
      if Conditional(t.head) { PassedIsFollowed(t.head); }
      SkippableIsFollowed(t.tail, StillAfter(t.head, after));
    }
  }

  /** 0%{t%}c, whose part t is left out. */
  function Untaken(t: Text, c: char): Text {
    Tried('0', t, Then(Lit(c), End))
  }

  /** Main result: condmacro is right about 0%{t%}c exactly if, in every conditional of t, each
      conditional is followed by a literal or ends a first part; otherwise c is lost. */
  lemma {:induction false} UntakenIsExact(t: Text, c: char, b: Out)
    requires Plain(t) && Braceless(t) && Apart(t, false) && c != '%' && Room(b) && 0 < b.n < MAXMACLEN - 1
    ensures Shown(Cond(Print(Untaken(t, c)), b, true, true, false).1)
            == Shown(b) + if AllFollowedInside(t) then [c] else ""
    ensures Eval(Untaken(t, c), Shown(b)) == Shown(b) + [c]
  {
    UntakenScanned(t, c, b);
    SkippableIsFollowed(t, false);
    EvalTried('0', t, Then(Lit(c), End), Shown(b));
    BehindUntaken(t, c, Popped(Put(b, '0')));
  }

  lemma {:induction false} BehindUntaken(t: Text, c: char, b: Out)
    requires Plain(t) && Braceless(t) && Apart(t, false) && c != '%' && Room(b) && 0 < b.n < MAXMACLEN
    ensures var inner := Cond(Print(t) + ("%}" + [c]), b, false, false, false);
            Shown(Cond(inner.0, inner.1, true, true, false).1) == Shown(b) + if Skippable(t) then [c] else ""
  {
    var r := PartScanned(t, [c], b, false, false);
    if Skippable(t) {
      StepClose([c], b, false, false);
      LastLit(c, b, true);
    } else {
      EndOfOne(r, c);
      LastLit(c, b, false);
    }
  }

  lemma {:induction false} LastLit(c: char, b: Out, flag: bool)
    requires Room(b) && b.n < MAXMACLEN && c != '%'
    ensures Cond([c], b, flag, flag, false) == ("", Copied(b, c, flag))
    ensures Shown(Copied(b, c, flag)) == Shown(b) + if flag then [c] else ""
  {
    assert [c] + "" == [c];
    StepLit(c, "", b, flag, flag);
  }

  lemma {:induction false} EndOfOne(r: string, c: char)
    requires EndOf(r, [c])
    ensures r == "" || r == [c]
  {
  }

  lemma {:induction false} UntakenScanned(t: Text, c: char, b: Out)
    requires Room(b) && 0 < b.n < MAXMACLEN - 1
    ensures var b1 := Popped(Put(b, '0'));
            var inner := Cond(Print(t) + ("%}" + [c]), b1, false, false, false);
            && Room(b1) && Shown(b1) == Shown(b)
            && Cond(Print(Untaken(t, c)), b, true, true, false) == Cond(inner.0, inner.1, true, true, false)
  {
    var text := Print(t) + ("%}" + [c]);
    PrintTried('0', t, Then(Lit(c), End), "");
    PrintLit(c, "");
    assert [c] + "" == [c] && Print(Untaken(t, c)) + "" == Print(Untaken(t, c));
    StepLit('0', "%{" + text, b, true, true);
    StepOpen(text, Put(b, '0'), true, true);
  }

  // ---- Escapes that no tree has ----

  /** The abort code empties the output and ends its level, where text is written; where it is not, it is
      dropped.  Any other unknown escape is dropped; at the very end of the text a terminator is written. */
  lemma {:induction false} EscapesExactly(c: char, s: string, b: Out, flag: bool, active: bool)
    requires Room(b) && b.n < MAXMACLEN && c !in "}{!%"
    ensures var r := Cond(['%', c] + s, b, flag, active, false);
            if c == '*' && active then r == (s, Out(b.buf[0 := '\0'], 0))
            else if c == '*' || s != "" then r == Cond(s, b, flag, active, false)
            else r == ("", if active then Out(b.buf[b.n := '\0'], b.n + 1) else b)
  {
    assert c != '}' && c != '{' && c != '!' && c != '%';
    StepEscape(c, s, b, flag, active);
    assert ([c] + s)[1..] == s;
  }

  /** Nothing more is written when the output is full, and a percent sign at the very end is dropped. */
  lemma {:induction false} EndsExactly(s: string, b: Out, flag: bool, active: bool)
    requires Room(b)
    ensures b.n >= MAXMACLEN ==> Cond(s, b, flag, active, false) == (s, b)
    ensures Cond("", b, flag, active, false) == ("", b)
    ensures b.n < MAXMACLEN ==> Cond("%", b, flag, active, false) == ("", b)
  {
  }

  // ---- The limits are real ----

  /** 0%{1%{1%{x%}%}%}c */
  function ThreeDeep(x: Text, c: char): Text {
    Untaken(Tried('1', Tried('1', x, End), End), c)
  }

  /** Three deep, whatever stands inside, skipmacro loses count: the character after the
      conditional is not written. */
  lemma {:induction false} ThreeDeepBreaks(x: Text, c: char, b: Out)
    requires Plain(x) && Braceless(x) && Apart(x, false) && c != '%' && Room(b) && 0 < b.n < MAXMACLEN - 1
    ensures Depth(ThreeDeep(x, c)) == Depth(x) + 3
    ensures Eval(ThreeDeep(x, c), Shown(b)) == Shown(b) + [c]
    ensures Shown(Cond(Print(ThreeDeep(x, c)), b, true, true, false).1) == Shown(b)
  {
    var last := TriedIs('1', x);
    var inner := TriedIs('1', last);
    NothingFollows('1', x, false);
    NotFollowedInside(last);
    DepthOfUntaken(inner, c);
    UntakenIsExact(inner, c, b);
  }

  /** In 1%{x%} no literal follows the conditional. */
  lemma {:induction false} NothingFollows(c: char, x: Text, after: bool)
    ensures !Followed(Tried(c, x, End), after, true)
  {
    var rest := Then(When(x), End);
    var still := StillAfter(Lit(c), after);
    assert Followed(rest, still, true) ==> Followed(rest.tail, true, true);
  }

  lemma {:induction false} NotFollowedInside(yes: Text)
    requires !Followed(yes, false, true)
    ensures !AllFollowedInside(Tried('1', yes, End))
  {
    assert !AllFollowedInside(Then(When(yes), End));
  }

  lemma {:induction false} DepthOfUntaken(t: Text, c: char)
    ensures Depth(Untaken(t, c)) == 1 + Depth(t)
  {
    assert Depth(Then(Lit(c), End)) == 0;
    assert Depth(Then(When(t), Then(Lit(c), End))) == 1 + Depth(t);
  }

  lemma {:induction false} TriedIs(c: char, yes: Text) returns (t: Text)
    requires Plain(yes) && Braceless(yes) && Apart(yes, false) && c != '%' && c != '{' && c != '}'
    ensures t == Tried(c, yes, End) && Plain(t) && Braceless(t) && Apart(t, false) && Depth(t) == 1 + Depth(yes)
  {
    assert Plain(End) && Braceless(End) && Apart(End, true) && Depth(End) == 0;
    t := Then(When(yes), End);
    assert Plain(t) && Braceless(t) && Apart(t, false) && Depth(t) == 1 + Depth(yes);
    t := Then(Lit(c), t);
  }

  /** 0%{1%{a%}%}b, with nothing written before: when the inner conditional is skipped, a character
      appears from nowhere, here the old test digit. */
  lemma {:induction false} EmptyOutputBreaks(b: Out)
    requires Room(b) && b.n == 0
    ensures var t := Tried('0', Tried('1', Then(Lit('a'), End), End), Then(Lit('b'), End));
            Depth(t) == 2 && Eval(t, "") == "b" && Shown(Cond(Print(t), b, true, true, false).1) == "0b"
  {
    var inner := Tried('1', Then(Lit('a'), End), End);
    var last := Then(Lit('b'), End);
    EvalTried('0', inner, last, "");
    PrintTried('0', inner, last, "");
    PrintLit('b', "");
    assert ['b'] + "" == ['b'] && Print(Tried('0', inner, last)) + "" == Print(Tried('0', inner, last));
    assert Depth(Then(Lit('a'), End)) == 0 && Depth(inner) == 1;
    var text := Print(inner) + ("%}" + ['b']);
    StepLit('0', "%{" + text, b, true, true);
    StepOpen(text, Put(b, '0'), true, true);
    var popped := Popped(Put(b, '0'));
    InnerSkippedOnEmpty(popped);
    StepLit('b', "", Unpopped(popped), true, true);
    assert Shown(Put(Unpopped(popped), 'b')) == "0b";
  }

  lemma {:induction false} InnerSkippedOnEmpty(b: Out)
    requires Room(b) && b.n == 0
    ensures Cond(Print(Tried('1', Then(Lit('a'), End), End)) + ("%}" + ['b']), b, false, false, false) == (['b'], Unpopped(b))
  {
    var y := "%}" + ['b'];
    PrintTried('1', Then(Lit('a'), End), End, y);
    PrintLit('a', "%}" + y);
    assert Print(End) + y == y;
    StepLit('1', "%{" + (['a'] + ("%}" + y)), b, false, false);
    StepOpen(['a'] + ("%}" + y), b, false, false);
    SkipChar('a', "%}" + y, false);
    SkipPair('}', y, false);
    SkipChar('}', y, true);
    StepClose(['b'], Unpopped(b), false, false);
  }
}
